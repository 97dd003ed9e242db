/** Digests from the test suite in section A.5 of RFC 1321, worked out operation by operation.  They
    fix the additive constants, the initial registers and everything else that the code and the
    definition have in common. */
module Md5Vectors {
  import opened Md5Block
  import opened Md5
  import opened Md5Stream

  /** One operation, given the message word it adds and the register it computes. */
  lemma Advance(i: nat, s0: State, x: seq<Word>, s: State, k: nat, b: Word)
    requires i < 64 && |x| == 16 && RfcSteps(i, s0, x) == s && k == RfcWord(i)
    requires RfcNext(s.a, s.b, RfcMix(i, s.b, s.c, s.d), x[k], T(i), RfcShift(i)) == b
    ensures RfcSteps(i + 1, s0, x) == State(s.d, b, s.b, s.c)
  {
    hide RfcMix, RfcNext, RfcWord, RfcShift, T;
  }

  /** The registers before the first operation: the bytes 01 23 45 67 89 ab cd ef and back again,
      low-order byte first (section 3.3). */
  lemma InitialBytes()
    ensures Output(INIT) ==
            [0x01, 0x23, 0x45, 0x67, 0x89, 0xab, 0xcd, 0xef, 0xfe, 0xdc, 0xba, 0x98, 0x76, 0x54, 0x32, 0x10]
  {
  }

  lemma NoSteps(s0: State, x: seq<Word>)
    requires |x| == 16
    ensures RfcSteps(0, s0, x) == s0
  {
  }

  // The message abc.

  predicate AbcWords(x: seq<Word>) {
    && |x| == 16
    && x[0] == 0x80636261 && x[1] == 0x00000000 && x[2] == 0x00000000 && x[3] == 0x00000000
    && x[4] == 0x00000000 && x[5] == 0x00000000 && x[6] == 0x00000000 && x[7] == 0x00000000
    && x[8] == 0x00000000 && x[9] == 0x00000000 && x[10] == 0x00000000 && x[11] == 0x00000000
    && x[12] == 0x00000000 && x[13] == 0x00000000 && x[14] == 0x00000018 && x[15] == 0x00000000
  }

  lemma AbcRound1(s0: State, x: seq<Word>)
    requires AbcWords(x) && RfcSteps(0, s0, x) == State(0x67452301, 0xefcdab89, 0x98badcfe, 0x10325476)
    ensures RfcSteps(16, s0, x) == State(0xdda9b9a6, 0x72aff2e0, 0xe396856b, 0xa1051895)
  {
    hide RfcSteps;
    Advance(0, s0, x, State(0x67452301, 0xefcdab89, 0x98badcfe, 0x10325476), 0, 0xd6d117b4);
    Advance(1, s0, x, State(0x10325476, 0xd6d117b4, 0xefcdab89, 0x98badcfe), 1, 0x344a8432);
    Advance(2, s0, x, State(0x98badcfe, 0x344a8432, 0xd6d117b4, 0xefcdab89), 2, 0x2f6fbd72);
    Advance(3, s0, x, State(0xefcdab89, 0x2f6fbd72, 0x344a8432, 0xd6d117b4), 3, 0x7ad956f2);
    Advance(4, s0, x, State(0xd6d117b4, 0x7ad956f2, 0x2f6fbd72, 0x344a8432), 4, 0xc73741ef);
    Advance(5, s0, x, State(0x344a8432, 0xc73741ef, 0x7ad956f2, 0x2f6fbd72), 5, 0x8bac3051);
    Advance(6, s0, x, State(0x2f6fbd72, 0x8bac3051, 0xc73741ef, 0x7ad956f2), 6, 0x207dc67b);
    Advance(7, s0, x, State(0x7ad956f2, 0x207dc67b, 0x8bac3051, 0xc73741ef), 7, 0x928d99f6);
    Advance(8, s0, x, State(0xc73741ef, 0x928d99f6, 0x207dc67b, 0x8bac3051), 8, 0x854b3712);
    Advance(9, s0, x, State(0x8bac3051, 0x854b3712, 0x928d99f6, 0x207dc67b), 9, 0x74e2f284);
    Advance(10, s0, x, State(0x207dc67b, 0x74e2f284, 0x854b3712, 0x928d99f6), 10, 0x3020401c);
    Advance(11, s0, x, State(0x928d99f6, 0x3020401c, 0x74e2f284, 0x854b3712), 11, 0x5ed49596);
    Advance(12, s0, x, State(0x854b3712, 0x5ed49596, 0x3020401c, 0x74e2f284), 12, 0xdda9b9a6);
    Advance(13, s0, x, State(0x74e2f284, 0xdda9b9a6, 0x5ed49596, 0x3020401c), 13, 0xa1051895);
    Advance(14, s0, x, State(0x3020401c, 0xa1051895, 0xdda9b9a6, 0x5ed49596), 14, 0xe396856b);
    Advance(15, s0, x, State(0x5ed49596, 0xe396856b, 0xa1051895, 0xdda9b9a6), 15, 0x72aff2e0);
  }

  lemma AbcRound2a(s0: State, x: seq<Word>)
    requires AbcWords(x) && RfcSteps(16, s0, x) == State(0xdda9b9a6, 0x72aff2e0, 0xe396856b, 0xa1051895)
    ensures RfcSteps(24, s0, x) == State(0x59a8ffda, 0x47092c07, 0xabfc7920, 0x6d002f1e)
  {
    hide RfcSteps;
    Advance(16, s0, x, State(0xdda9b9a6, 0x72aff2e0, 0xe396856b, 0xa1051895), 1, 0x3e9e9126);
    Advance(17, s0, x, State(0xa1051895, 0x3e9e9126, 0x72aff2e0, 0xe396856b), 6, 0x4a1d804e);
    Advance(18, s0, x, State(0xe396856b, 0x4a1d804e, 0x3e9e9126, 0x72aff2e0), 11, 0xe25e1652);
    Advance(19, s0, x, State(0x72aff2e0, 0xe25e1652, 0x4a1d804e, 0x3e9e9126), 0, 0xb5b204e4);
    Advance(20, s0, x, State(0x3e9e9126, 0xb5b204e4, 0xe25e1652, 0x4a1d804e), 5, 0x59a8ffda);
    Advance(21, s0, x, State(0x4a1d804e, 0x59a8ffda, 0xb5b204e4, 0xe25e1652), 10, 0x6d002f1e);
    Advance(22, s0, x, State(0xe25e1652, 0x6d002f1e, 0x59a8ffda, 0xb5b204e4), 15, 0xabfc7920);
    Advance(23, s0, x, State(0xb5b204e4, 0xabfc7920, 0x6d002f1e, 0x59a8ffda), 4, 0x47092c07);
  }

  lemma AbcRound2b(s0: State, x: seq<Word>)
    requires AbcWords(x) && RfcSteps(24, s0, x) == State(0x59a8ffda, 0x47092c07, 0xabfc7920, 0x6d002f1e)
    ensures RfcSteps(32, s0, x) == State(0x790a77fb, 0x726342d3, 0xa62884aa, 0x9f47e4f8)
  {
    hide RfcSteps;
    Advance(24, s0, x, State(0x59a8ffda, 0x47092c07, 0xabfc7920, 0x6d002f1e), 9, 0xb7f268cf);
    Advance(25, s0, x, State(0x6d002f1e, 0xb7f268cf, 0x47092c07, 0xabfc7920), 14, 0x09388eff);
    Advance(26, s0, x, State(0xabfc7920, 0x09388eff, 0xb7f268cf, 0x47092c07), 3, 0xfe1623b1);
    Advance(27, s0, x, State(0x47092c07, 0xfe1623b1, 0x09388eff, 0xb7f268cf), 8, 0x786acb8f);
    Advance(28, s0, x, State(0xb7f268cf, 0x786acb8f, 0xfe1623b1, 0x09388eff), 13, 0x790a77fb);
    Advance(29, s0, x, State(0x09388eff, 0x790a77fb, 0x786acb8f, 0xfe1623b1), 2, 0x9f47e4f8);
    Advance(30, s0, x, State(0xfe1623b1, 0x9f47e4f8, 0x790a77fb, 0x786acb8f), 7, 0xa62884aa);
    Advance(31, s0, x, State(0x786acb8f, 0xa62884aa, 0x9f47e4f8, 0x790a77fb), 12, 0x726342d3);
  }

  lemma AbcRound3(s0: State, x: seq<Word>)
    requires AbcWords(x) && RfcSteps(32, s0, x) == State(0x790a77fb, 0x726342d3, 0xa62884aa, 0x9f47e4f8)
    ensures RfcSteps(48, s0, x) == State(0x7f2e507b, 0x7beb9700, 0x8fae6399, 0x99d9679d)
  {
    hide RfcSteps;
    Advance(32, s0, x, State(0x790a77fb, 0x726342d3, 0xa62884aa, 0x9f47e4f8), 5, 0xb3707ebf);
    Advance(33, s0, x, State(0x9f47e4f8, 0xb3707ebf, 0x726342d3, 0xa62884aa), 8, 0x60127b2e);
    Advance(34, s0, x, State(0xa62884aa, 0x60127b2e, 0xb3707ebf, 0x726342d3), 11, 0x8d212ff5);
    Advance(35, s0, x, State(0x726342d3, 0x8d212ff5, 0x60127b2e, 0xb3707ebf), 14, 0x3b0875c7);
    Advance(36, s0, x, State(0xb3707ebf, 0x3b0875c7, 0x8d212ff5, 0x60127b2e), 1, 0x21b117b9);
    Advance(37, s0, x, State(0x60127b2e, 0x21b117b9, 0x3b0875c7, 0x8d212ff5), 4, 0x6e7429d5);
    Advance(38, s0, x, State(0x8d212ff5, 0x6e7429d5, 0x21b117b9, 0x3b0875c7), 7, 0x3575227e);
    Advance(39, s0, x, State(0x3b0875c7, 0x3575227e, 0x6e7429d5, 0x21b117b9), 10, 0x5a2f5ea5);
    Advance(40, s0, x, State(0x21b117b9, 0x5a2f5ea5, 0x3575227e, 0x6e7429d5), 13, 0x11de1779);
    Advance(41, s0, x, State(0x6e7429d5, 0x11de1779, 0x5a2f5ea5, 0x3575227e), 0, 0xfadcaa38);
    Advance(42, s0, x, State(0x3575227e, 0xfadcaa38, 0x11de1779, 0x5a2f5ea5), 3, 0x31c465ca);
    Advance(43, s0, x, State(0x5a2f5ea5, 0x31c465ca, 0xfadcaa38, 0x11de1779), 6, 0x4c6124f4);
    Advance(44, s0, x, State(0x11de1779, 0x4c6124f4, 0x31c465ca, 0xfadcaa38), 9, 0x7f2e507b);
    Advance(45, s0, x, State(0xfadcaa38, 0x7f2e507b, 0x4c6124f4, 0x31c465ca), 12, 0x99d9679d);
    Advance(46, s0, x, State(0x31c465ca, 0x99d9679d, 0x7f2e507b, 0x4c6124f4), 15, 0x8fae6399);
    Advance(47, s0, x, State(0x4c6124f4, 0x8fae6399, 0x99d9679d, 0x7f2e507b), 2, 0x7beb9700);
  }

  lemma AbcRound4(s0: State, x: seq<Word>)
    requires AbcWords(x) && RfcSteps(48, s0, x) == State(0x7f2e507b, 0x7beb9700, 0x8fae6399, 0x99d9679d)
    ensures RfcSteps(64, s0, x) == State(0x310ade8f, 0xc08226b3, 0xe484b9d8, 0x624d8cb2)
  {
    hide RfcSteps;
    Advance(48, s0, x, State(0x7f2e507b, 0x7beb9700, 0x8fae6399, 0x99d9679d), 0, 0x7b201df8);
    Advance(49, s0, x, State(0x99d9679d, 0x7b201df8, 0x7beb9700, 0x8fae6399), 7, 0xf4e8e96e);
    Advance(50, s0, x, State(0x8fae6399, 0xf4e8e96e, 0x7b201df8, 0x7beb9700), 14, 0xb298cefd);
    Advance(51, s0, x, State(0x7beb9700, 0xb298cefd, 0xf4e8e96e, 0x7b201df8), 5, 0x8bf025c4);
    Advance(52, s0, x, State(0x7b201df8, 0x8bf025c4, 0xb298cefd, 0xf4e8e96e), 12, 0x06cc5e8a);
    Advance(53, s0, x, State(0xf4e8e96e, 0x06cc5e8a, 0x8bf025c4, 0xb298cefd), 3, 0x5b0d97aa);
    Advance(54, s0, x, State(0xb298cefd, 0x5b0d97aa, 0x06cc5e8a, 0x8bf025c4), 10, 0x7d632dd0);
    Advance(55, s0, x, State(0x8bf025c4, 0x7d632dd0, 0x5b0d97aa, 0x06cc5e8a), 1, 0x3bfa2c27);
    Advance(56, s0, x, State(0x06cc5e8a, 0x3bfa2c27, 0x7d632dd0, 0x5b0d97aa), 8, 0x7f81cc35);
    Advance(57, s0, x, State(0x5b0d97aa, 0x7f81cc35, 0x3bfa2c27, 0x7d632dd0), 15, 0x094454ab);
    Advance(58, s0, x, State(0x7d632dd0, 0x094454ab, 0x7f81cc35, 0x3bfa2c27), 6, 0x4f9dbe3f);
    Advance(59, s0, x, State(0x3bfa2c27, 0x4f9dbe3f, 0x094454ab, 0x7f81cc35), 13, 0x7327d604);
    Advance(60, s0, x, State(0x7f81cc35, 0x7327d604, 0x4f9dbe3f, 0x094454ab), 4, 0x310ade8f);
    Advance(61, s0, x, State(0x094454ab, 0x310ade8f, 0x7327d604, 0x4f9dbe3f), 11, 0x624d8cb2);
    Advance(62, s0, x, State(0x4f9dbe3f, 0x624d8cb2, 0x310ade8f, 0x7327d604), 2, 0xe484b9d8);
    Advance(63, s0, x, State(0x7327d604, 0xe484b9d8, 0x624d8cb2, 0x310ade8f), 9, 0xc08226b3);
  }

  lemma AbcCompress(block: seq<Byte>)
    requires |block| == 64 && AbcWords(Words(block))
    ensures RfcCompress(State(0x67452301, 0xefcdab89, 0x98badcfe, 0x10325476), block)
         == State(0x98500190, 0xb04fd23c, 0x7d3f96d6, 0x727fe128)
  {
    var s0 := State(0x67452301, 0xefcdab89, 0x98badcfe, 0x10325476);
    var x := Words(block);
    NoSteps(s0, x);
    hide RfcSteps, Words, AbcWords;
    AbcRound1(s0, x);
    AbcRound2a(s0, x);
    AbcRound2b(s0, x);
    AbcRound3(s0, x);
    AbcRound4(s0, x);
  }

  // The digits 1 to 9 and 0, eight times: two blocks.

  predicate FirstWords(x: seq<Word>) {
    && |x| == 16
    && x[0] == 0x34333231 && x[1] == 0x38373635 && x[2] == 0x32313039 && x[3] == 0x36353433
    && x[4] == 0x30393837 && x[5] == 0x34333231 && x[6] == 0x38373635 && x[7] == 0x32313039
    && x[8] == 0x36353433 && x[9] == 0x30393837 && x[10] == 0x34333231 && x[11] == 0x38373635
    && x[12] == 0x32313039 && x[13] == 0x36353433 && x[14] == 0x30393837 && x[15] == 0x34333231
  }

  lemma FirstRound1(s0: State, x: seq<Word>)
    requires FirstWords(x) && RfcSteps(0, s0, x) == State(0x67452301, 0xefcdab89, 0x98badcfe, 0x10325476)
    ensures RfcSteps(16, s0, x) == State(0x5157e49e, 0xaf506a03, 0x27e983a0, 0xffac907e)
  {
    hide RfcSteps;
    Advance(0, s0, x, State(0x67452301, 0xefcdab89, 0x98badcfe, 0x10325476), 0, 0xbeb8ff8e);
    Advance(1, s0, x, State(0x10325476, 0xbeb8ff8e, 0xefcdab89, 0x98badcfe), 1, 0x7d989d89);
    Advance(2, s0, x, State(0x98badcfe, 0x7d989d89, 0xbeb8ff8e, 0xefcdab89), 2, 0xf8cdf95d);
    Advance(3, s0, x, State(0xefcdab89, 0xf8cdf95d, 0x7d989d89, 0xbeb8ff8e), 3, 0x862797b0);
    Advance(4, s0, x, State(0xbeb8ff8e, 0x862797b0, 0xf8cdf95d, 0x7d989d89), 4, 0x8c17de9f);
    Advance(5, s0, x, State(0x7d989d89, 0x8c17de9f, 0x862797b0, 0xf8cdf95d), 5, 0xc0f32d81);
    Advance(6, s0, x, State(0xf8cdf95d, 0xc0f32d81, 0x8c17de9f, 0x862797b0), 6, 0xe99fec1b);
    Advance(7, s0, x, State(0x862797b0, 0xe99fec1b, 0xc0f32d81, 0x8c17de9f), 7, 0xc57e78c1);
    Advance(8, s0, x, State(0x8c17de9f, 0xc57e78c1, 0xe99fec1b, 0xc0f32d81), 8, 0x7c0aceb7);
    Advance(9, s0, x, State(0xc0f32d81, 0x7c0aceb7, 0xc57e78c1, 0xe99fec1b), 9, 0x8869d2d8);
    Advance(10, s0, x, State(0xe99fec1b, 0x8869d2d8, 0x7c0aceb7, 0xc57e78c1), 10, 0x5186a8ba);
    Advance(11, s0, x, State(0xc57e78c1, 0x5186a8ba, 0x8869d2d8, 0x7c0aceb7), 11, 0xa5f36f8d);
    Advance(12, s0, x, State(0x7c0aceb7, 0xa5f36f8d, 0x5186a8ba, 0x8869d2d8), 12, 0x5157e49e);
    Advance(13, s0, x, State(0x8869d2d8, 0x5157e49e, 0xa5f36f8d, 0x5186a8ba), 13, 0xffac907e);
    Advance(14, s0, x, State(0x5186a8ba, 0xffac907e, 0x5157e49e, 0xa5f36f8d), 14, 0x27e983a0);
    Advance(15, s0, x, State(0xa5f36f8d, 0x27e983a0, 0xffac907e, 0x5157e49e), 15, 0xaf506a03);
  }

  lemma FirstRound2a(s0: State, x: seq<Word>)
    requires FirstWords(x) && RfcSteps(16, s0, x) == State(0x5157e49e, 0xaf506a03, 0x27e983a0, 0xffac907e)
    ensures RfcSteps(24, s0, x) == State(0x78929ee0, 0xad400a91, 0xb18aca50, 0x375c6c2c)
  {
    hide RfcSteps;
    Advance(16, s0, x, State(0x5157e49e, 0xaf506a03, 0x27e983a0, 0xffac907e), 1, 0x8d18e0e8);
    Advance(17, s0, x, State(0xffac907e, 0x8d18e0e8, 0xaf506a03, 0x27e983a0), 6, 0x07de0df2);
    Advance(18, s0, x, State(0x27e983a0, 0x07de0df2, 0x8d18e0e8, 0xaf506a03), 11, 0xef223167);
    Advance(19, s0, x, State(0xaf506a03, 0xef223167, 0x07de0df2, 0x8d18e0e8), 0, 0x04280170);
    Advance(20, s0, x, State(0x8d18e0e8, 0x04280170, 0xef223167, 0x07de0df2), 5, 0x78929ee0);
    Advance(21, s0, x, State(0x07de0df2, 0x78929ee0, 0x04280170, 0xef223167), 10, 0x375c6c2c);
    Advance(22, s0, x, State(0xef223167, 0x375c6c2c, 0x78929ee0, 0x04280170), 15, 0xb18aca50);
    Advance(23, s0, x, State(0x04280170, 0xb18aca50, 0x375c6c2c, 0x78929ee0), 4, 0xad400a91);
  }

  lemma FirstRound2b(s0: State, x: seq<Word>)
    requires FirstWords(x) && RfcSteps(24, s0, x) == State(0x78929ee0, 0xad400a91, 0xb18aca50, 0x375c6c2c)
    ensures RfcSteps(32, s0, x) == State(0xf8bcfbb0, 0x1bf25662, 0x99a0f1b8, 0xd760ed39)
  {
    hide RfcSteps;
    Advance(24, s0, x, State(0x78929ee0, 0xad400a91, 0xb18aca50, 0x375c6c2c), 9, 0xbb45f43f);
    Advance(25, s0, x, State(0x375c6c2c, 0xbb45f43f, 0xad400a91, 0xb18aca50), 14, 0xd61f8a0f);
    Advance(26, s0, x, State(0xb18aca50, 0xd61f8a0f, 0xbb45f43f, 0xad400a91), 3, 0x98ade6b5);
    Advance(27, s0, x, State(0xad400a91, 0x98ade6b5, 0xd61f8a0f, 0xbb45f43f), 8, 0xb70e35a9);
    Advance(28, s0, x, State(0xbb45f43f, 0xb70e35a9, 0x98ade6b5, 0xd61f8a0f), 13, 0xf8bcfbb0);
    Advance(29, s0, x, State(0xd61f8a0f, 0xf8bcfbb0, 0xb70e35a9, 0x98ade6b5), 2, 0xd760ed39);
    Advance(30, s0, x, State(0x98ade6b5, 0xd760ed39, 0xf8bcfbb0, 0xb70e35a9), 7, 0x99a0f1b8);
    Advance(31, s0, x, State(0xb70e35a9, 0x99a0f1b8, 0xd760ed39, 0xf8bcfbb0), 12, 0x1bf25662);
  }

  lemma FirstRound3(s0: State, x: seq<Word>)
    requires FirstWords(x) && RfcSteps(32, s0, x) == State(0xf8bcfbb0, 0x1bf25662, 0x99a0f1b8, 0xd760ed39)
    ensures RfcSteps(48, s0, x) == State(0x697032ec, 0xdb4197da, 0xefc2c171, 0xfa597bfc)
  {
    hide RfcSteps;
    Advance(32, s0, x, State(0xf8bcfbb0, 0x1bf25662, 0x99a0f1b8, 0xd760ed39), 5, 0x3dbd76ca);
    Advance(33, s0, x, State(0xd760ed39, 0x3dbd76ca, 0x1bf25662, 0x99a0f1b8), 8, 0xfd056171);
    Advance(34, s0, x, State(0x99a0f1b8, 0xfd056171, 0x3dbd76ca, 0x1bf25662), 11, 0xc7ed7c30);
    Advance(35, s0, x, State(0x1bf25662, 0xc7ed7c30, 0xfd056171, 0x3dbd76ca), 14, 0xe0162f49);
    Advance(36, s0, x, State(0x3dbd76ca, 0xe0162f49, 0xc7ed7c30, 0xfd056171), 1, 0x3b32c408);
    Advance(37, s0, x, State(0xfd056171, 0x3b32c408, 0xe0162f49, 0xc7ed7c30), 4, 0x7338d8b7);
    Advance(38, s0, x, State(0xc7ed7c30, 0x7338d8b7, 0x3b32c408, 0xe0162f49), 7, 0x9ef871ad);
    Advance(39, s0, x, State(0xe0162f49, 0x9ef871ad, 0x7338d8b7, 0x3b32c408), 10, 0x1d4d6f72);
    Advance(40, s0, x, State(0x3b32c408, 0x1d4d6f72, 0x9ef871ad, 0x7338d8b7), 13, 0xc661460a);
    Advance(41, s0, x, State(0x7338d8b7, 0xc661460a, 0x1d4d6f72, 0x9ef871ad), 0, 0xd2bf04c9);
    Advance(42, s0, x, State(0x9ef871ad, 0xd2bf04c9, 0xc661460a, 0x1d4d6f72), 3, 0xd6d5b879);
    Advance(43, s0, x, State(0x1d4d6f72, 0xd6d5b879, 0xd2bf04c9, 0xc661460a), 6, 0x89e3c4d7);
    Advance(44, s0, x, State(0xc661460a, 0x89e3c4d7, 0xd6d5b879, 0xd2bf04c9), 9, 0x697032ec);
    Advance(45, s0, x, State(0xd2bf04c9, 0x697032ec, 0x89e3c4d7, 0xd6d5b879), 12, 0xfa597bfc);
    Advance(46, s0, x, State(0xd6d5b879, 0xfa597bfc, 0x697032ec, 0x89e3c4d7), 15, 0xefc2c171);
    Advance(47, s0, x, State(0x89e3c4d7, 0xefc2c171, 0xfa597bfc, 0x697032ec), 2, 0xdb4197da);
  }

  lemma FirstRound4(s0: State, x: seq<Word>)
    requires FirstWords(x) && RfcSteps(48, s0, x) == State(0x697032ec, 0xdb4197da, 0xefc2c171, 0xfa597bfc)
    ensures RfcSteps(64, s0, x) == State(0x614868eb, 0xb4d33102, 0x5133129b, 0xa09f38a7)
  {
    hide RfcSteps;
    Advance(48, s0, x, State(0x697032ec, 0xdb4197da, 0xefc2c171, 0xfa597bfc), 0, 0x57b91aca);
    Advance(49, s0, x, State(0xfa597bfc, 0x57b91aca, 0xdb4197da, 0xefc2c171), 7, 0x210c9ebc);
    Advance(50, s0, x, State(0xefc2c171, 0x210c9ebc, 0x57b91aca, 0xdb4197da), 14, 0x21efbd88);
    Advance(51, s0, x, State(0xdb4197da, 0x21efbd88, 0x210c9ebc, 0x57b91aca), 5, 0xcaa25b01);
    Advance(52, s0, x, State(0x57b91aca, 0xcaa25b01, 0x21efbd88, 0x210c9ebc), 12, 0x633d3f7c);
    Advance(53, s0, x, State(0x210c9ebc, 0x633d3f7c, 0xcaa25b01, 0x21efbd88), 3, 0x1a4d3beb);
    Advance(54, s0, x, State(0x21efbd88, 0x1a4d3beb, 0x633d3f7c, 0xcaa25b01), 10, 0xccaa1524);
    Advance(55, s0, x, State(0xcaa25b01, 0xccaa1524, 0x1a4d3beb, 0x633d3f7c), 1, 0x7713f5df);
    Advance(56, s0, x, State(0x633d3f7c, 0x7713f5df, 0xccaa1524, 0x1a4d3beb), 8, 0x8448b430);
    Advance(57, s0, x, State(0x1a4d3beb, 0x8448b430, 0x7713f5df, 0xccaa1524), 15, 0x71c93463);
    Advance(58, s0, x, State(0xccaa1524, 0x71c93463, 0x8448b430, 0x7713f5df), 6, 0x7e294727);
    Advance(59, s0, x, State(0x7713f5df, 0x7e294727, 0x71c93463, 0x8448b430), 13, 0x660a801d);
    Advance(60, s0, x, State(0x8448b430, 0x660a801d, 0x7e294727, 0x71c93463), 4, 0x614868eb);
    Advance(61, s0, x, State(0x71c93463, 0x614868eb, 0x660a801d, 0x7e294727), 11, 0xa09f38a7);
    Advance(62, s0, x, State(0x7e294727, 0xa09f38a7, 0x614868eb, 0x660a801d), 2, 0x5133129b);
    Advance(63, s0, x, State(0x660a801d, 0x5133129b, 0xa09f38a7, 0x614868eb), 9, 0xb4d33102);
  }

  lemma FirstCompress(block: seq<Byte>)
    requires |block| == 64 && FirstWords(Words(block))
    ensures RfcCompress(State(0x67452301, 0xefcdab89, 0x98badcfe, 0x10325476), block)
         == State(0xc88d8bec, 0xa4a0dc8b, 0xe9edef99, 0xb0d18d1d)
  {
    var s0 := State(0x67452301, 0xefcdab89, 0x98badcfe, 0x10325476);
    var x := Words(block);
    NoSteps(s0, x);
    hide RfcSteps, Words, FirstWords;
    FirstRound1(s0, x);
    FirstRound2a(s0, x);
    FirstRound2b(s0, x);
    FirstRound3(s0, x);
    FirstRound4(s0, x);
  }

  predicate SecondWords(x: seq<Word>) {
    && |x| == 16
    && x[0] == 0x38373635 && x[1] == 0x32313039 && x[2] == 0x36353433 && x[3] == 0x30393837
    && x[4] == 0x00000080 && x[5] == 0x00000000 && x[6] == 0x00000000 && x[7] == 0x00000000
    && x[8] == 0x00000000 && x[9] == 0x00000000 && x[10] == 0x00000000 && x[11] == 0x00000000
    && x[12] == 0x00000000 && x[13] == 0x00000000 && x[14] == 0x00000280 && x[15] == 0x00000000
  }

  lemma SecondRound1(s0: State, x: seq<Word>)
    requires SecondWords(x) && RfcSteps(0, s0, x) == State(0xc88d8bec, 0xa4a0dc8b, 0xe9edef99, 0xb0d18d1d)
    ensures RfcSteps(16, s0, x) == State(0xdb4ff71c, 0x58b12eab, 0x04396a39, 0x9b6b4960)
  {
    hide RfcSteps;
    Advance(0, s0, x, State(0xc88d8bec, 0xa4a0dc8b, 0xe9edef99, 0xb0d18d1d), 0, 0x353af7cf);
    Advance(1, s0, x, State(0xb0d18d1d, 0x353af7cf, 0xa4a0dc8b, 0xe9edef99), 1, 0x3a4f735a);
    Advance(2, s0, x, State(0xe9edef99, 0x3a4f735a, 0x353af7cf, 0xa4a0dc8b), 2, 0x63356537);
    Advance(3, s0, x, State(0xa4a0dc8b, 0x63356537, 0x3a4f735a, 0x353af7cf), 3, 0x45e88f2c);
    Advance(4, s0, x, State(0x353af7cf, 0x45e88f2c, 0x63356537, 0x3a4f735a), 4, 0x3527497e);
    Advance(5, s0, x, State(0x3a4f735a, 0x3527497e, 0x45e88f2c, 0x63356537), 5, 0xab92660e);
    Advance(6, s0, x, State(0x63356537, 0xab92660e, 0x3527497e, 0x45e88f2c), 6, 0x948347ae);
    Advance(7, s0, x, State(0x45e88f2c, 0x948347ae, 0xab92660e, 0x3527497e), 7, 0x377c7d0a);
    Advance(8, s0, x, State(0x3527497e, 0x377c7d0a, 0x948347ae, 0xab92660e), 8, 0xcc912f27);
    Advance(9, s0, x, State(0xab92660e, 0xcc912f27, 0x377c7d0a, 0x948347ae), 9, 0x6945a3d5);
    Advance(10, s0, x, State(0x948347ae, 0x6945a3d5, 0xcc912f27, 0x377c7d0a), 10, 0xae23894d);
    Advance(11, s0, x, State(0x377c7d0a, 0xae23894d, 0x6945a3d5, 0xcc912f27), 11, 0xb9ede40c);
    Advance(12, s0, x, State(0xcc912f27, 0xb9ede40c, 0xae23894d, 0x6945a3d5), 12, 0xdb4ff71c);
    Advance(13, s0, x, State(0x6945a3d5, 0xdb4ff71c, 0xb9ede40c, 0xae23894d), 13, 0x9b6b4960);
    Advance(14, s0, x, State(0xae23894d, 0x9b6b4960, 0xdb4ff71c, 0xb9ede40c), 14, 0x04396a39);
    Advance(15, s0, x, State(0xb9ede40c, 0x04396a39, 0x9b6b4960, 0xdb4ff71c), 15, 0x58b12eab);
  }

  lemma SecondRound2a(s0: State, x: seq<Word>)
    requires SecondWords(x) && RfcSteps(16, s0, x) == State(0xdb4ff71c, 0x58b12eab, 0x04396a39, 0x9b6b4960)
    ensures RfcSteps(24, s0, x) == State(0x0d6e6d91, 0x043cb080, 0xd5b7a850, 0x17d64195)
  {
    hide RfcSteps;
    Advance(16, s0, x, State(0xdb4ff71c, 0x58b12eab, 0x04396a39, 0x9b6b4960), 1, 0x52c00cae);
    Advance(17, s0, x, State(0x9b6b4960, 0x52c00cae, 0x58b12eab, 0x04396a39), 6, 0xaad2a216);
    Advance(18, s0, x, State(0x04396a39, 0xaad2a216, 0x52c00cae, 0x58b12eab), 11, 0xa476af6f);
    Advance(19, s0, x, State(0x58b12eab, 0xa476af6f, 0xaad2a216, 0x52c00cae), 0, 0x50f8de8c);
    Advance(20, s0, x, State(0x52c00cae, 0x50f8de8c, 0xa476af6f, 0xaad2a216), 5, 0x0d6e6d91);
    Advance(21, s0, x, State(0xaad2a216, 0x0d6e6d91, 0x50f8de8c, 0xa476af6f), 10, 0x17d64195);
    Advance(22, s0, x, State(0xa476af6f, 0x17d64195, 0x0d6e6d91, 0x50f8de8c), 15, 0xd5b7a850);
    Advance(23, s0, x, State(0x50f8de8c, 0xd5b7a850, 0x17d64195, 0x0d6e6d91), 4, 0x043cb080);
  }

  lemma SecondRound2b(s0: State, x: seq<Word>)
    requires SecondWords(x) && RfcSteps(24, s0, x) == State(0x0d6e6d91, 0x043cb080, 0xd5b7a850, 0x17d64195)
    ensures RfcSteps(32, s0, x) == State(0x8761f38e, 0x67092c33, 0x061bc867, 0x7a516116)
  {
    hide RfcSteps;
    Advance(24, s0, x, State(0x0d6e6d91, 0x043cb080, 0xd5b7a850, 0x17d64195), 9, 0x74f9377e);
    Advance(25, s0, x, State(0x17d64195, 0x74f9377e, 0x043cb080, 0xd5b7a850), 14, 0x01f2addd);
    Advance(26, s0, x, State(0xd5b7a850, 0x01f2addd, 0x74f9377e, 0x043cb080), 3, 0xe775c8ca);
    Advance(27, s0, x, State(0x043cb080, 0xe775c8ca, 0x01f2addd, 0x74f9377e), 8, 0xcb00b96e);
    Advance(28, s0, x, State(0x74f9377e, 0xcb00b96e, 0xe775c8ca, 0x01f2addd), 13, 0x8761f38e);
    Advance(29, s0, x, State(0x01f2addd, 0x8761f38e, 0xcb00b96e, 0xe775c8ca), 2, 0x7a516116);
    Advance(30, s0, x, State(0xe775c8ca, 0x7a516116, 0x8761f38e, 0xcb00b96e), 7, 0x061bc867);
    Advance(31, s0, x, State(0xcb00b96e, 0x061bc867, 0x7a516116, 0x8761f38e), 12, 0x67092c33);
  }

  lemma SecondRound3(s0: State, x: seq<Word>)
    requires SecondWords(x) && RfcSteps(32, s0, x) == State(0x8761f38e, 0x67092c33, 0x061bc867, 0x7a516116)
    ensures RfcSteps(48, s0, x) == State(0x71123afa, 0x1df7010a, 0xe6a8a386, 0xdc9c8ddb)
  {
    hide RfcSteps;
    Advance(32, s0, x, State(0x8761f38e, 0x67092c33, 0x061bc867, 0x7a516116), 5, 0x91044d5d);
    Advance(33, s0, x, State(0x7a516116, 0x91044d5d, 0x67092c33, 0x061bc867), 8, 0x610954eb);
    Advance(34, s0, x, State(0x061bc867, 0x610954eb, 0x91044d5d, 0x67092c33), 11, 0xc0175fa8);
    Advance(35, s0, x, State(0x67092c33, 0xc0175fa8, 0x610954eb, 0x91044d5d), 14, 0x2ee1e3fe);
    Advance(36, s0, x, State(0x91044d5d, 0x2ee1e3fe, 0xc0175fa8, 0x610954eb), 1, 0xae26ed7d);
    Advance(37, s0, x, State(0x610954eb, 0xae26ed7d, 0x2ee1e3fe, 0xc0175fa8), 4, 0x71d8ecea);
    Advance(38, s0, x, State(0xc0175fa8, 0x71d8ecea, 0xae26ed7d, 0x2ee1e3fe), 7, 0xff4a94dc);
    Advance(39, s0, x, State(0x2ee1e3fe, 0xff4a94dc, 0x71d8ecea, 0xae26ed7d), 10, 0xdbd1bff6);
    Advance(40, s0, x, State(0xae26ed7d, 0xdbd1bff6, 0xff4a94dc, 0x71d8ecea), 13, 0x9c350028);
    Advance(41, s0, x, State(0x71d8ecea, 0x9c350028, 0xdbd1bff6, 0xff4a94dc), 0, 0x97e5da92);
    Advance(42, s0, x, State(0xff4a94dc, 0x97e5da92, 0x9c350028, 0xdbd1bff6), 3, 0xfacaaf06);
    Advance(43, s0, x, State(0xdbd1bff6, 0xfacaaf06, 0x97e5da92, 0x9c350028), 6, 0x56b3692f);
    Advance(44, s0, x, State(0x9c350028, 0x56b3692f, 0xfacaaf06, 0x97e5da92), 9, 0x71123afa);
    Advance(45, s0, x, State(0x97e5da92, 0x71123afa, 0x56b3692f, 0xfacaaf06), 12, 0xdc9c8ddb);
    Advance(46, s0, x, State(0xfacaaf06, 0xdc9c8ddb, 0x71123afa, 0x56b3692f), 15, 0xe6a8a386);
    Advance(47, s0, x, State(0x56b3692f, 0xe6a8a386, 0xdc9c8ddb, 0x71123afa), 2, 0x1df7010a);
  }

  lemma SecondRound4(s0: State, x: seq<Word>)
    requires SecondWords(x) && RfcSteps(48, s0, x) == State(0x71123afa, 0x1df7010a, 0xe6a8a386, 0xdc9c8ddb)
    ensures RfcSteps(64, s0, x) == State(0xda67616b, 0xb12906a0, 0x44ec5a13, 0xc9e47a04)
  {
    hide RfcSteps;
    Advance(48, s0, x, State(0x71123afa, 0x1df7010a, 0xe6a8a386, 0xdc9c8ddb), 0, 0xd29007e7);
    Advance(49, s0, x, State(0xdc9c8ddb, 0xd29007e7, 0x1df7010a, 0xe6a8a386), 7, 0x7241a77e);
    Advance(50, s0, x, State(0xe6a8a386, 0x7241a77e, 0xd29007e7, 0x1df7010a), 14, 0xd3248109);
    Advance(51, s0, x, State(0x1df7010a, 0xd3248109, 0x7241a77e, 0xd29007e7), 5, 0xc8797828);
    Advance(52, s0, x, State(0xd29007e7, 0xc8797828, 0xd3248109, 0x7241a77e), 12, 0x7a504abd);
    Advance(53, s0, x, State(0x7241a77e, 0x7a504abd, 0xc8797828, 0xd3248109), 3, 0x211cc65d);
    Advance(54, s0, x, State(0xd3248109, 0x211cc65d, 0x7a504abd, 0xc8797828), 10, 0xa290d6ce);
    Advance(55, s0, x, State(0xc8797828, 0xa290d6ce, 0x211cc65d, 0x7a504abd), 1, 0x9b31b114);
    Advance(56, s0, x, State(0x7a504abd, 0x9b31b114, 0xa290d6ce, 0x211cc65d), 8, 0x723fd22d);
    Advance(57, s0, x, State(0x211cc65d, 0x723fd22d, 0x9b31b114, 0xa290d6ce), 15, 0xd21d6a3b);
    Advance(58, s0, x, State(0xa290d6ce, 0xd21d6a3b, 0x723fd22d, 0x9b31b114), 6, 0x3d79cf74);
    Advance(59, s0, x, State(0x9b31b114, 0x3d79cf74, 0xd21d6a3b, 0x723fd22d), 13, 0x4dc4f33d);
    Advance(60, s0, x, State(0x723fd22d, 0x4dc4f33d, 0x3d79cf74, 0xd21d6a3b), 4, 0xda67616b);
    Advance(61, s0, x, State(0xd21d6a3b, 0xda67616b, 0x4dc4f33d, 0x3d79cf74), 11, 0xc9e47a04);
    Advance(62, s0, x, State(0x3d79cf74, 0xc9e47a04, 0xda67616b, 0x4dc4f33d), 2, 0x44ec5a13);
    Advance(63, s0, x, State(0x4dc4f33d, 0x44ec5a13, 0xc9e47a04, 0xda67616b), 9, 0xb12906a0);
  }

  lemma SecondCompress(block: seq<Byte>)
    requires |block| == 64 && SecondWords(Words(block))
    ensures RfcCompress(State(0xc88d8bec, 0xa4a0dc8b, 0xe9edef99, 0xb0d18d1d), block)
         == State(0xa2f4ed57, 0x55c9e32b, 0x2eda49ac, 0x7ab60721)
  {
    var s0 := State(0xc88d8bec, 0xa4a0dc8b, 0xe9edef99, 0xb0d18d1d);
    var x := Words(block);
    NoSteps(s0, x);
    hide RfcSteps, Words, SecondWords;
    SecondRound1(s0, x);
    SecondRound2a(s0, x);
    SecondRound2b(s0, x);
    SecondRound3(s0, x);
    SecondRound4(s0, x);
  }

  // The padded messages.

  lemma Lengths()
    ensures Bytes(24, 8) == [24, 0, 0, 0, 0, 0, 0, 0] && Bytes(640, 8) == [0x80, 2, 0, 0, 0, 0, 0, 0]
  {
    LowBytes();
    hide LowByte;
    BytesZero(7);
    BytesZero(6);
    FirstByte(24, 8);
    FirstByte(640, 8);
    FirstByte(2, 7);
  }

  lemma LowBytes()
    ensures LowByte(0) == 0 && LowByte(24) == 24 && LowByte(640) == 0x80 && LowByte(2) == 2
  {
    hide LowByte;
    LowZero();
    LowTwo();
    Low24();
    Low640();
  }

  lemma LowZero()
    ensures LowByte(0) == 0
  {
  }

  lemma LowTwo()
    ensures LowByte(2) == 2
  {
  }

  lemma Low24()
    ensures LowByte(24) == 24
  {
  }

  lemma Low640()
    ensures LowByte(640) == 0x80
  {
  }

  lemma {:induction false} BytesZero(k: nat)
    ensures Bytes(0, k) == Zeros(k)
  {
    LowBytes();
    if k > 0 {
      BytesZero(k - 1);
    }
  }

  const ABC: seq<Byte> := [0x61, 0x62, 0x63]

  lemma AbcPadded()
    ensures var p := ABC + Padding(3); |p| == 64 && AbcWords(Words(p))
  {
    Lengths();
    hide Bytes, LowByte;
    var p := ABC + Padding(3);
    assert p == ABC + [0x80] + Zeros(52) + [24, 0, 0, 0, 0, 0, 0, 0];
    assert forall i :: 4 <= i < 56 ==> p[i] == 0;
  }

  /** MD5 ("abc") = 900150983cd24fb0d6963f7d28e17f72 */
  lemma AbcDigest()
    ensures Output(Digest(ABC)) ==
            [0x90, 0x01, 0x50, 0x98, 0x3c, 0xd2, 0x4f, 0xb0, 0xd6, 0x96, 0x3f, 0x7d, 0x28, 0xe1, 0x7f, 0x72]
  {
    AbcPadded();
    hide Words, AbcWords, Padding, RfcCompress;
    var p := ABC + Padding(3);
    AbcCompress(p);
    FoldLast(INIT, p);
    FoldNone(INIT);
    assert p[..0] == [] && p[0..] == p;
  }

  /** Character i of the digits 1 to 9 and 0, repeated. */
  function DigitByte(i: nat): Byte {
    match i % 10
    case 0 => 0x31 case 1 => 0x32 case 2 => 0x33 case 3 => 0x34 case 4 => 0x35
    case 5 => 0x36 case 6 => 0x37 case 7 => 0x38 case 8 => 0x39 case _ => 0x30
  }

  function Eighty(): seq<Byte> { seq(80, i requires 0 <= i < 80 => DigitByte(i)) }

  function DigitWord(i: nat): Word { Join(DigitByte(i), DigitByte(i + 1), DigitByte(i + 2), DigitByte(i + 3)) }

  lemma FiveWords()
    ensures DigitWord(0) == 0x34333231 && DigitWord(4) == 0x38373635 && DigitWord(8) == 0x32313039
    ensures DigitWord(12) == 0x36353433 && DigitWord(16) == 0x30393837
  {
    TenBytes(0);
    TenBytes(10);
    hide DigitByte;
  }

  lemma TenBytes(i: nat)
    requires i % 10 == 0
    ensures DigitByte(i) == 0x31 && DigitByte(i + 1) == 0x32 && DigitByte(i + 2) == 0x33 && DigitByte(i + 3) == 0x34
    ensures DigitByte(i + 4) == 0x35 && DigitByte(i + 5) == 0x36 && DigitByte(i + 6) == 0x37 && DigitByte(i + 7) == 0x38
    ensures DigitByte(i + 8) == 0x39 && DigitByte(i + 9) == 0x30
  {
  }

  lemma WordsRepeat(i: nat)
    ensures DigitWord(i + 20) == DigitWord(i)
  {
    assert (i + 20) % 10 == i % 10 && (i + 21) % 10 == (i + 1) % 10;
    assert (i + 22) % 10 == (i + 2) % 10 && (i + 23) % 10 == (i + 3) % 10;
  }

  lemma AllWords()
    ensures DigitWord(0) == DigitWord(20) == DigitWord(40) == DigitWord(60) == 0x34333231
    ensures DigitWord(4) == DigitWord(24) == DigitWord(44) == DigitWord(64) == 0x38373635
    ensures DigitWord(8) == DigitWord(28) == DigitWord(48) == DigitWord(68) == 0x32313039
    ensures DigitWord(12) == DigitWord(32) == DigitWord(52) == DigitWord(72) == 0x36353433
    ensures DigitWord(16) == DigitWord(36) == DigitWord(56) == DigitWord(76) == 0x30393837
  {
    hide DigitWord;
    FiveWords();
    WordsRepeat(0);
    WordsRepeat(20);
    WordsRepeat(40);
    WordsRepeat(4);
    WordsRepeat(24);
    WordsRepeat(44);
    WordsRepeat(8);
    WordsRepeat(28);
    WordsRepeat(48);
    WordsRepeat(12);
    WordsRepeat(32);
    WordsRepeat(52);
    WordsRepeat(16);
    WordsRepeat(36);
    WordsRepeat(56);
  }

  lemma WordOf(block: seq<Byte>, k: nat, from: nat)
    requires |block| == 64 && k < 16
    requires forall i :: 4 * k <= i < 4 * k + 4 ==> block[i] == DigitByte(from + i)
    ensures Words(block)[k] == DigitWord(from + 4 * k)
  {
    hide DigitByte, Join;
  }

  lemma FirstBlock(block: seq<Byte>)
    requires |block| == 64 && forall i :: 0 <= i < 64 ==> block[i] == DigitByte(i)
    ensures FirstWords(Words(block))
  {
    hide DigitByte, DigitWord, Words;
    AllWords();
    forall k | 0 <= k < 16 ensures Words(block)[k] == DigitWord(4 * k) {
      WordOf(block, k, 0);
    }
  }

  lemma SecondBlock(block: seq<Byte>)
    requires |block| == 64 && forall i :: 0 <= i < 16 ==> block[i] == DigitByte(64 + i)
    requires block[16] == 0x80 && block[56] == 0x80 && block[57] == 2
    requires forall i :: 17 <= i < 56 || 58 <= i < 64 ==> block[i] == 0
    ensures SecondWords(Words(block))
  {
    hide DigitByte, DigitWord;
    AllWords();
    WordOf(block, 0, 64);
    WordOf(block, 1, 64);
    WordOf(block, 2, 64);
    WordOf(block, 3, 64);
  }

  lemma EightyPadded()
    ensures var p := Eighty() + Padding(80);
            |p| == 128 && FirstWords(Words(p[..64])) && SecondWords(Words(p[64..]))
  {
    Lengths();
    hide Bytes, LowByte, FirstWords, SecondWords, Words, DigitByte;
    var p := Eighty() + Padding(80);
    assert p == Eighty() + [0x80] + Zeros(39) + [0x80, 2, 0, 0, 0, 0, 0, 0];
    FirstBlock(p[..64]);
    SecondBlock(p[64..]);
  }

  lemma TwoBlocks(p: seq<Byte>)
    requires |p| == 128
    ensures Fold(INIT, p) == RfcCompress(RfcCompress(INIT, p[..64]), p[64..])
  {
    hide *;
    FoldLast(INIT, p);
    FoldLast(INIT, p[..64]);
    FoldNone(INIT);
    assert p[..64][..0] == [] && p[..64][0..] == p[..64];
  }

  lemma EightyOutput()
    ensures Output(State(0xa2f4ed57, 0x55c9e32b, 0x2eda49ac, 0x7ab60721)) ==
            [0x57, 0xed, 0xf4, 0xa2, 0x2b, 0xe3, 0xc9, 0x55, 0xac, 0x49, 0xda, 0x2e, 0x21, 0x07, 0xb6, 0x7a]
  {
  }

  /** MD5 ("12345678901234567890...") = 57edf4a22be3c955ac49da2e2107b67a */
  lemma EightyDigest()
    ensures Output(Digest(Eighty())) ==
            [0x57, 0xed, 0xf4, 0xa2, 0x2b, 0xe3, 0xc9, 0x55, 0xac, 0x49, 0xda, 0x2e, 0x21, 0x07, 0xb6, 0x7a]
  {
    EightyPadded();
    assert |Eighty()| == 80;
    EightyOutput();
    hide Words, FirstWords, SecondWords, Padding, RfcCompress, Eighty, Output, Fold;
    var p := Eighty() + Padding(80);
    FirstCompress(p[..64]);
    SecondCompress(p[64..]);
    TwoBlocks(p);
  }

  /** What md5sum stores for abc. */
  method SumOfAbc() returns (resbuf: seq<Byte>)
    ensures resbuf == [0x90, 0x01, 0x50, 0x98, 0x3c, 0xd2, 0x4f, 0xb0, 0xd6, 0x96, 0x3f, 0x7d, 0x28, 0xe1, 0x7f, 0x72]
  {
    var digest := Md5Sum(ABC);
    AbcDigest();
    resbuf := Output(digest);
  }
}
