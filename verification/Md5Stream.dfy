/** The context of misclib/md5.c and its operations. */
module Md5Stream {
  import opened Md5Block
  import opened Md5

  const FILL: seq<Byte> := [0x80] + Zeros(63)

  /** What md5_finish_ctx appends fits the buffer and ends on a block boundary. */
  lemma PaddingFits(n: nat, d: nat, bytes: nat, t0: nat, t1: nat)
    requires n == d + bytes && d % 64 == 0 && bytes <= 64
    ensures var pad := if bytes >= 56 then 64 + 56 - bytes else 56 - bytes;
            && 1 <= pad <= 64 && bytes + pad + 8 <= 128 && (bytes + pad + 8) % 64 == 0
            && |LengthField(t0, t1)| == 8 && |FILL| == 64
            && FILL[..pad] + LengthField(t0, t1) == CodePadding(n, (t0, t1))
  {
    hide Bytes, BitOr;
    FillPrefix(PadLen(n));
  }

  /** With a right count it is the RFC's padding. */
  lemma PaddingRight(n: nat, d: nat, bytes: nat, t0: nat, t1: nat)
    requires n == d + bytes && d % 64 == 0 && bytes <= 64 && Counts(t0, t1, n)
    ensures CodePadding(n, (t0, t1)) == Padding(n)
  {
    hide Bytes, BitOr, Counts, LengthField;
    LengthFieldRight(t0, t1, n);
  }

  /** The padding with the count `c` instead of the message's own length. */
  function CodePadding(n: nat, c: (nat, nat)): (p: seq<Byte>)
    ensures |p| == PadLen(n) + 8
  {
    [0x80] + Zeros(PadLen(n) - 1) + LengthField(c.0, c.1)
  }

  /** The digest of a message whose length was counted as `c`. */
  function CodeDigest(msg: seq<Byte>, c: (nat, nat)): State {
    Fold(INIT, msg + CodePadding(|msg|, c))
  }

  lemma RightDigest(msg: seq<Byte>, t0: nat, t1: nat)
    requires CodePadding(|msg|, (t0, t1)) == Padding(|msg|)
    ensures CodeDigest(msg, (t0, t1)) == Digest(msg)
  {
    hide Fold, CodePadding, Padding;
    PaddedLength(msg);
  }

  lemma PaddedDigest(done: seq<Byte>, staged: seq<Byte>, t0: nat, t1: nat)
    requires |done| % 64 == 0
    ensures var p := CodePadding(|done + staged|, (t0, t1));
            |staged + p| % 64 == 0 && Fold(Fold(INIT, done), staged + p) == CodeDigest(done + staged, (t0, t1))
  {
    hide Fold, LengthField;
    var msg, p := done + staged, CodePadding(|done + staged|, (t0, t1));
    assert msg + p == done + (staged + p);
    FoldConcat(INIT, done, staged + p);
  }

  lemma JoinedParts(fed: seq<Byte>, data: seq<Byte>, add: nat)
    requires add <= |data|
    ensures fed + data[..add] + data[add..] == fed + data && |data[add..]| == |data| - add
    ensures add == 0 ==> fed + data[..add] == fed
    ensures add == |data| ==> fed + data[..add] == fed + data
  {
    assert data == data[..add] + data[add..];
    assert add == |data| ==> data[..add] == data;
  }

  lemma FillPrefix(pad: nat)
    requires 1 <= pad <= 64
    ensures |FILL| == 64 && FILL[..pad] == [0x80] + Zeros(pad - 1)
  {
  }

  class Context {
    var A: Word
    var B: Word
    var C: Word
    var D: Word
    var total0: nat
    var total1: nat
    var buflen: nat
    const buffer: array<Byte>

    /** Everything fed to the context so far, and whether the counter has kept up with it. */
    ghost var fed: seq<Byte>
    ghost var right: bool

    function Registers(): State
      reads `A, `B, `C, `D
    {
      State(A, B, C, D)
    }

    /** The registers, and the counter if it is right, account for exactly the bytes `done`. */
    ghost predicate Core(done: seq<Byte>)
      reads `A, `B, `C, `D, `total0, `total1, `right
    {
      && |done| % 64 == 0 && Registers() == Fold(INIT, done)
      && total0 < M32 && total1 < M32 && (right ==> Counts(total0, total1, |done|))
      && (|done| < M64 ==> Behind(total0, total1, |done|, right))
    }

    /** The bytes fed are those in the registers followed by those in the buffer. */
    ghost predicate Valid()
      reads this, buffer
    {
      && buffer.Length == 128 && buflen <= 64 && buflen <= |fed|
      && Core(fed[..|fed| - buflen]) && fed[|fed| - buflen..] == buffer[..buflen]
    }

    /** md5_init_ctx */
    constructor ()
      ensures Valid() && fed == [] && right && total0 == total1 == buflen == 0 && fresh(buffer)
    {
      A, B, C, D := INIT.a, INIT.b, INIT.c, INIT.d;
      total0, total1, buflen := 0, 0, 0;
      buffer := new Byte[128];
      fed, right := [], true;
    }

    /** md5_process_block */
    method ProcessBlock(data: seq<Byte>)
      requires |data| % 64 == 0
      modifies `A, `B, `C, `D, `total0, `total1
      ensures Registers() == Fold(old(Registers()), data)
      ensures (total0, total1) == CountUp(old(total0), old(total1), |data|)
    {
      hide Fold, CountUp;
      CountUpBy(|data|);
      var r := Blocks(Registers(), data);
      A, B, C, D := r.a, r.b, r.c, r.d;
    }

    /** Processing blocks; the counter stays right if it can take their length. */
    method Consume(data: seq<Byte>, ghost done: seq<Byte>)
      requires Core(done) && |data| % 64 == 0 && |data| < M64
      modifies `A, `B, `C, `D, `total0, `total1, `right
      ensures Core(done + data) && right == (old(right) && CarryFits(old(total0), |data|))
      ensures (total0, total1) == CountUp(old(total0), old(total1), |data|)
      ensures old(right) ==> (right <==> Counts(total0, total1, |done + data|))
    {
      hide Fold, Counts, CountUp, Behind, CarryFits;
      if right {
        CarryExact(total0, total1, |done|, |data|);
      }
      if |done + data| < M64 {
        BehindNext(total0, total1, |done|, right, |data|);
      }
      CountUpRange(total0, total1, |data|);
      FoldConcat(INIT, done, data);
      right := right && CarryFits(total0, |data|);
      ProcessBlock(data);
    }

    /** memcpy to the buffer at offset `at`. */
    method CopyIn(at: nat, data: seq<Byte>)
      requires at + |data| <= buffer.Length
      modifies buffer
      ensures buffer[at..at + |data|] == data
      ensures buffer[..at] == old(buffer[..at])
    {
      forall i | 0 <= i < |data| {
        buffer[at + i] := data[i];
      }
    }

    /** Bytes left over from earlier calls are joined with new ones. */
    method JoinIn(data: seq<Byte>, ghost done: seq<Byte>)
      requires buffer.Length == 128 && buflen + |data| <= 128 && Core(done) && fed == done + buffer[..buflen]
      modifies `buflen, `fed, buffer
      ensures Core(done) && buflen == old(buflen) + |data| && fed == old(fed) + data && fed == done + buffer[..buflen]
    {
      hide Core;
      var left := buflen;
      CopyIn(left, data);
      buflen := left + |data|;
      fed := fed + data;
      assert buffer[..buflen] == buffer[..left] + data;
    }

    /** The first part of md5_process_bytes: bytes left over from earlier calls are joined with
        as many new ones as the buffer takes, and flushed when there are more than 64. */
    method TopUp(data: seq<Byte>) returns (add: nat)
      requires Valid() && buflen != 0
      modifies this, buffer
      ensures Valid() && add == Joining(old(buflen), |data|) && fed == old(fed) + data[..add]
      ensures if add < |data| then buflen == 0 else buflen == StagedAfter(old(buflen), |data|)
      ensures right == old(right)
      ensures (total0, total1) == CountUp(old(total0), old(total1), Flushed(old(buflen), |data|))
    {
      hide *;
      ghost var done := Unpack();
      JoiningFacts(buflen, |data|);
      var left := buflen;
      add := if 128 - left > |data| then |data| else 128 - left;
      JoinIn(data[..add], done);
      var sum := left + add;
      if sum > 64 {
        Flush(sum, done);
      } else {
        CoreSmall(done);
        CountNothing(total0, total1);
        HoldsValid(done);
      }
    }

    /** More than 64 bytes are staged: process the whole blocks and move the rest down. */
    method Flush(sum: nat, ghost done: seq<Byte>)
      requires buffer.Length == 128 && 64 < sum <= 128 && Core(done) && fed == done + buffer[..sum]
      modifies `A, `B, `C, `D, `total0, `total1, `right, `buflen, buffer
      ensures Valid() && buflen == sum % 64 && right == old(right)
      ensures (total0, total1) == CountUp(old(total0), old(total1), sum - sum % 64)
    {
      hide Core;
      var n := sum - sum % 64;
      var head := buffer[..n];
      ghost var tail := buffer[n..sum];
      assert done + buffer[..sum] == (done + head) + tail;
      CoreSmall(done);
      Consume(head, done);
      assert Core(done + head);
      CopyIn(0, buffer[n..sum]);
      buflen := sum % 64;
      HoldsValid(done + head);
    }

    /** md5_process_bytes, for every length that a size can have.  The counter stays right if and
        only if it can take the call. */
    method ProcessBytes(data: seq<Byte>)
      requires Valid() && |data| < M64
      modifies this, buffer
      ensures Valid() && fed == old(fed) + data && buflen == StagedAfter(old(buflen), |data|)
      ensures right == (old(right) && CallFits(old(|fed|), old(buflen), |data|))
      ensures old(right) ==> (right <==> Counts(total0, total1, |fed| - buflen))
      ensures |fed| < M64 ==> (right <==> Counts(total0, total1, |fed| - buflen))
      ensures (total0, total1) == CallCount(old(total0), old(total1), old(buflen), |data|)
    {
      hide *;
      RightExact();
      CallFacts(|fed|, buflen, |data|, total0, total1);
      CountNothing(total0, total1);
      var add := 0;
      if buflen != 0 {
        add := TopUp(data);
        RightExact();
      }
      CountNothing(total0, total1);
      JoinedParts(old(fed), data, add);
      if add < |data| {
        Absorb(data[add..]);
      }
      RightExact();
    }

    /** With nothing staged, whole blocks are processed straight from the input. */
    method Drain(rest: seq<Byte>) returns (data: seq<Byte>, ghost done: seq<Byte>)
      requires Valid() && buflen == 0 && 0 < |rest| < M64
      modifies `A, `B, `C, `D, `total0, `total1, `right
      ensures Core(done) && fed + rest == done + data && |data| == if |rest| > 64 then |rest| % 64 else |rest|
      ensures right == (old(right) && (|rest| > 64 ==> CarryFits(old(|fed|) % M32, |rest| - |rest| % 64)))
      ensures old(right) ==> (right <==> Counts(total0, total1, |done|))
      ensures (total0, total1) == CountUp(old(total0), old(total1), if |rest| > 64 then |rest| - |rest| % 64 else 0)
    {
      hide Core, CountUp, Counts, CarryFits;
      data, done := rest, fed;
      assert fed[..|fed| - 0] == fed;
      CoreSmall(done);
      CountNothing(total0, total1);
      if |data| > 64 {
        var n := |data| - |data| % 64;
        Consume(data[..n], done);
        done := done + data[..n];
        data := data[n..];
      }
      assert fed + rest == done + data;
    }

    /** The rest of md5_process_bytes: the remainder, or a final full block, is staged. */
    method Absorb(rest: seq<Byte>)
      requires Valid() && buflen == 0 && 0 < |rest| < M64
      modifies this, buffer
      ensures Valid() && fed == old(fed) + rest
      ensures buflen == if |rest| > 64 then |rest| % 64 else |rest|
      ensures right == (old(right) && (|rest| > 64 ==> CarryFits(old(|fed|) % M32, |rest| - |rest| % 64)))
      ensures old(right) ==> (right <==> Counts(total0, total1, |fed| - buflen))
      ensures (total0, total1) == CountUp(old(total0), old(total1), if |rest| > 64 then |rest| - |rest| % 64 else 0)
    {
      hide Core, CountUp, Counts, CarryFits;
      var data;
      ghost var done;
      data, done := Drain(rest);
      fed := fed + rest;
      if |data| > 0 {
        CopyIn(0, data);
        buflen := |data|;
      }
      assert buffer[..buflen] == data;
      HoldsValid(done);
    }

    /** md5_finish_ctx: the digest with whatever count the counter holds, which is the RFC's if the
        count is right. */
    method Finish() returns (digest: State)
      requires Valid()
      modifies this, buffer
      ensures digest == CodeDigest(fed, CountUp(old(total0), old(total1), old(buflen))) && fed == old(fed)
      ensures old(right) ==> digest == Digest(fed)
      ensures var c := CountUp(old(total0), old(total1), old(buflen));
              |fed| < M64 ==> (old(right) <==> Counts(c.0, c.1, |fed|))
    {
      hide Behind, Fold, Counts, CountUp, Padding, LengthField, PadLen, Digest, CodeDigest;
      var bytes := buflen;
      ghost var done := Unpack();
      FinishCount(done, bytes);
      CountUpBy(bytes);
      var pad := if bytes >= 56 then 64 + 56 - bytes else 56 - bytes;
      PaddingFits(|fed|, |done|, bytes, total0, total1);
      if right {
        PaddingRight(|fed|, |done|, bytes, total0, total1);
        RightDigest(fed, total0, total1);
      }
      ghost var staged := buffer[..bytes];
      Stage(bytes, FILL[..pad], LengthField(total0, total1));
      PaddedDigest(done, staged, total0, total1);
      ProcessBlock(buffer[..bytes + pad + 8]);
      digest := Registers();
    }

    method Stage(bytes: nat, fill: seq<Byte>, length: seq<Byte>)
      requires bytes + |fill| + |length| <= buffer.Length
      modifies buffer
      ensures buffer[..bytes + |fill| + |length|] == old(buffer[..bytes]) + (fill + length)
    {
      CopyIn(bytes, fill);
      assert buffer[..bytes + |fill|] == buffer[..bytes] + fill;
      CopyIn(bytes + |fill|, length);
      assert buffer[..bytes + |fill| + |length|] == buffer[..bytes + |fill|] + length;
    }

    lemma FinishCount(done: seq<Byte>, bytes: nat)
      requires Core(done) && bytes <= 64
      ensures right ==> var t := CountUp(total0, total1, bytes); Counts(t.0, t.1, |done| + bytes)
      ensures var t := CountUp(total0, total1, bytes);
              |done| + bytes < M64 ==> (right <==> Counts(t.0, t.1, |done| + bytes))
    {
      hide Fold, Counts, CountUp, Behind;
      if right {
        CarryExact(total0, total1, |done|, bytes);
      }
      if |done| + bytes < M64 {
        BehindNext(total0, total1, |done|, right, bytes);
        var t := CountUp(total0, total1, bytes);
        BehindCounts(t.0, t.1, |done| + bytes, right);
      }
    }

    lemma CoreSmall(done: seq<Byte>)
      requires Core(done)
      ensures total0 < M32 && total1 < M32 && |done| % 64 == 0
      ensures right ==> total0 == |done| % M32 && Counts(total0, total1, |done|)
    {
      if right {
        LowWord(total0, total1, |done|);
      }
    }

    /** The flag says whether the count is right, as long as the bytes fed number below 2^64. */
    lemma RightExact()
      requires Valid()
      ensures buflen <= 64 && buflen <= |fed| && total0 < M32 && total1 < M32
      ensures right ==> Counts(total0, total1, |fed| - buflen)
      ensures |fed| < M64 ==> (right <==> Counts(total0, total1, |fed| - buflen))
    {
      hide Fold, Counts, Behind;
      if |fed| < M64 {
        BehindCounts(total0, total1, |fed| - buflen, right);
      }
    }

    /** What Valid says of the bytes that have been processed. */
    lemma Unpack() returns (done: seq<Byte>)
      requires Valid()
      ensures buffer.Length == 128 && buflen <= 64 && buflen <= |fed| && done == fed[..|fed| - buflen]
      ensures Core(done) && fed == done + buffer[..buflen]
    {
      done := fed[..|fed| - buflen];
    }

    lemma HoldsValid(done: seq<Byte>)
      requires buffer.Length == 128 && buflen <= 64 && Core(done) && fed == done + buffer[..buflen]
      ensures Valid() && |fed| - buflen == |done|
    {
      assert fed[..|fed| - buflen] == done && fed[|fed| - buflen..] == buffer[..buflen];
    }

    method CountUpBy(len: nat)
      modifies `total0, `total1
      ensures (total0, total1) == CountUp(old(total0), old(total1), len)
    {
      total0 := (total0 + len) % M32;
      if total0 < len {
        total1 := (total1 + 1) % M32;
      }
    }
  }

  /** The block loop of md5_process_block. */
  method Blocks(s: State, data: seq<Byte>) returns (r: State)
    requires |data| % 64 == 0
    ensures r == Fold(s, data)
  {
    hide *;
    r := s;
    var i := 0;
    FoldNone(s);
    assert data[..0] == [];
    while i < |data|
      invariant 0 <= i <= |data| && i % 64 == 0
      invariant r == Fold(s, data[..i])
    {
      CompressAgrees(r, data[i..i + 64]);
      FoldNext(s, data, i);
      r := CodeCompress(r, data[i..i + 64]);
      i := i + 64;
    }
    assert data[..i] == data;
  }

  lemma FoldNext(s: State, data: seq<Byte>, i: nat)
    requires i % 64 == 0 && i + 64 <= |data|
    ensures Fold(s, data[..i + 64]) == RfcCompress(Fold(s, data[..i]), data[i..i + 64])
  {
    hide *;
    var x := data[..i + 64];
    assert x[..i] == data[..i] && x[i..] == data[i..i + 64];
    FoldLast(s, x);
  }

  /** The count that md5sum arrives at for a message of `len` bytes. */
  function SumCount(len: nat): (nat, nat) {
    var c := CallCount(0, 0, 0, len);
    CountUp(c.0, c.1, StagedAfter(0, len))
  }

  /** A message of 2^33 bytes in one call gets the length field of one of 2^32 bytes. */
  lemma HugeSum()
    ensures SumCount(2 * M32) == (0, 1) && Counts(0, 1, M32) && !Counts(0, 1, 2 * M32)
    ensures LengthField(0, 1) == Bytes(8 * M32 % M64, 8)
  {
    hide Bytes, BitOr, LengthField;
    HugeCall();
    LengthFieldRight(0, 1, M32);
    CountNothing(0, 1);
  }

  /** md5sum, for every length that a size can have */
  method Md5Sum(data: seq<Byte>) returns (digest: State)
    requires |data| < M64
    ensures digest == CodeDigest(data, SumCount(|data|))
    ensures |data| < 2 * M32 ==> digest == Digest(data)
  {
    hide Digest, CallFits, CodeDigest, CountUp, CallCount, StagedAfter;
    SumFits(|data|);
    var ctx := new Context();
    ctx.ProcessBytes(data);
    assert [] + data == data;
    digest := ctx.Finish();
  }

  function Concat(chunks: seq<seq<Byte>>): seq<Byte> {
    if chunks == [] then [] else chunks[0] + Concat(chunks[1..])
  }

  lemma ConcatNext(fed: seq<Byte>, staged: nat, chunks: seq<seq<Byte>>, i: nat)
    requires i < |chunks| && staged <= 64
    ensures CallsFit(|fed|, staged, chunks[i..]) <==>
            && CallFits(|fed|, staged, |chunks[i]|)
            && CallsFit(|fed + chunks[i]|, StagedAfter(staged, |chunks[i]|), chunks[i + 1..])
    ensures fed + Concat(chunks[i..]) == fed + chunks[i] + Concat(chunks[i + 1..])
  {
    hide CallFits, StagedAfter;
    var rest := chunks[i..];
    assert rest[0] == chunks[i] && rest[1..] == chunks[i + 1..];
    assert fed + (chunks[i] + Concat(rest[1..])) == fed + chunks[i] + Concat(rest[1..]);
  }

  lemma ConcatNone(fed: seq<Byte>, chunks: seq<seq<Byte>>)
    ensures fed + Concat(chunks[|chunks|..]) == fed && [] + Concat(chunks[0..]) == Concat(chunks)
  {
    assert chunks[0..] == chunks && chunks[|chunks|..] == [];
    assert fed + [] == fed;
  }

  lemma NoneFits(fed: nat, staged: nat, chunks: seq<seq<Byte>>)
    requires staged <= 64
    ensures CallsFit(fed, staged, chunks[|chunks|..])
  {
  }

  /** However a message is cut into chunks, the digest is that of the whole message padded with the
      count; for a message below 2^64 bytes the count is right if and only if the counter can take
      the chunks, and it can take any that are below 2^32 bytes. */
  method DigestChunks(chunks: seq<seq<Byte>>) returns (digest: State, ghost count: (nat, nat))
    requires forall i :: 0 <= i < |chunks| ==> |chunks[i]| < M64
    ensures digest == CodeDigest(Concat(chunks), count)
    ensures |Concat(chunks)| < M64 ==> (Counts(count.0, count.1, |Concat(chunks)|) <==> CallsFit(0, 0, chunks))
    ensures CallsFit(0, 0, chunks) ==> digest == Digest(Concat(chunks))
    ensures (forall i :: 0 <= i < |chunks| ==> |chunks[i]| < M32) ==> digest == Digest(Concat(chunks))
  {
    hide *;
    if forall i :: 0 <= i < |chunks| ==> |chunks[i]| < M32 {
      SmallCallsFit(0, 0, chunks);
    }
    var ctx := new Context();
    assert chunks[0..] == chunks;
    ConcatNone([], chunks);
    for i := 0 to |chunks|
      invariant ctx.Valid() && fresh(ctx) && fresh(ctx.buffer) && ctx.buflen <= 64
      invariant CallsFit(0, 0, chunks) <==> ctx.right && CallsFit(|ctx.fed|, ctx.buflen, chunks[i..])
      invariant ctx.fed + Concat(chunks[i..]) == Concat(chunks)
    {
      ConcatNext(ctx.fed, ctx.buflen, chunks, i);
      ctx.ProcessBytes(chunks[i]);
    }
    NoneFits(|ctx.fed|, ctx.buflen, chunks);
    ConcatNone(ctx.fed, chunks);
    count := CountUp(ctx.total0, ctx.total1, ctx.buflen);
    digest := ctx.Finish();
  }
}
