/** The stream cipher of misclib/rc4encrypt.c: keystream, state permutation and round trips. */
module Rc4 {
  import opened ModArith

  type Table = s: seq<nat> | |s| == 256 witness seq(256, i => i)

  datatype State = State(d: Table, x: nat, y: nat)

  /** Every byte value occurs in the table exactly once. */
  ghost predicate Permutation(d: Table) {
    && (forall i :: 0 <= i < 256 ==> d[i] < 256)
    && (forall i, j :: 0 <= i < j < 256 ==> d[i] != d[j])
    && (forall v :: 0 <= v < 256 ==> v in d)
  }

  ghost predicate Sound(s: State) {
    s.x < 256 && s.y < 256 && Permutation(s.d)
  }

  function Swap(d: Table, i: nat, j: nat): Table
    requires i < 256 && j < 256
  {
    d[i := d[j]][j := d[i]]
  }

  lemma SwapKeeps(d: Table, i: nat, j: nat)
    requires i < 256 && j < 256 && Permutation(d)
    ensures Permutation(Swap(d, i, j))
  {
    var e := Swap(d, i, j);
    forall v | 0 <= v < 256 ensures v in e {
      assert v in d;
      var k :| 0 <= k < 256 && d[k] == v;
      assert e[if k == i then j else if k == j then i else k] == v;
    }
  }

  lemma SwapTwice(d: Table, i: nat, j: nat)
    requires i < 256 && j < 256
    ensures Swap(Swap(d, i, j), i, j) == d
  {
    assert Swap(Swap(d, i, j), i, j) == d;
  }

  function LowByte(n: nat): bv8 { (n % 256) as bv8 }

  function Value(b: bv8): nat { b as nat }

  function Xor(a: bv8, b: bv8): bv8 { a ^ b }

  // The cipher, one byte at a time.

  function Next(s: State): State {
    var x := (s.x + 1) % 256;
    var y := (s.y + s.d[x]) % 256;
    State(Swap(s.d, x, y), x, y)
  }

  /** The key byte that a state just advanced stands for. */
  function KeyByte(s: State): bv8
    requires s.x < 256 && s.y < 256
  {
    LowByte(s.d[(s.d[s.x] + s.d[s.y]) % 256])
  }

  function After(s: State, n: nat): (t: State)
    ensures n > 0 ==> t.x < 256 && t.y < 256
  {
    if n == 0 then s else Next(After(s, n - 1))
  }

  function Crypt(s: State, data: seq<bv8>): (r: seq<bv8>)
    ensures |r| == |data|
  {
    if data == [] then []
    else
      var n := |data| - 1;
      Crypt(s, data[..n]) + [Xor(KeyByte(After(s, n + 1)), data[n])]
  }

  lemma NextKeeps(s: State)
    requires Sound(s)
    ensures Sound(Next(s))
  {
    var x := (s.x + 1) % 256;
    SwapKeeps(s.d, x, (s.y + s.d[x]) % 256);
  }

  /** The table is a permutation however many bytes have been produced. */
  lemma {:induction false} AfterKeeps(s: State, n: nat)
    requires Sound(s)
    ensures Sound(After(s, n))
  {
    hide Next, Permutation;
    if n > 0 {
      AfterKeeps(s, n - 1);
      NextKeeps(After(s, n - 1));
    }
  }

  /** A step can be undone: it never merges two states. */
  lemma NextInjective(s: State, t: State)
    requires Sound(s) && Sound(t) && Next(s) == Next(t)
    ensures s == t
  {
    hide Swap, Permutation;
    var u := Next(s);
    SwapTwice(s.d, u.x, u.y);
    SwapTwice(t.d, u.x, u.y);
    assert s.x == t.x && s.d == t.d;
  }

  lemma {:induction false} AfterInjective(s: State, t: State, n: nat)
    requires Sound(s) && Sound(t) && After(s, n) == After(t, n)
    ensures s == t
  {
    hide Next, Permutation;
    if n > 0 {
      AfterKeeps(s, n - 1);
      AfterKeeps(t, n - 1);
      NextInjective(After(s, n - 1), After(t, n - 1));
      AfterInjective(s, t, n - 1);
    }
  }

  lemma {:induction false} AfterSum(s: State, m: nat, n: nat)
    ensures After(After(s, m), n) == After(s, m + n)
  {
    hide Next;
    if n > 0 {
      AfterSum(s, m, n - 1);
    }
  }

  /** One call on a and then one on b is one call on both. */
  lemma {:induction false} CryptConcat(s: State, a: seq<bv8>, b: seq<bv8>)
    ensures Crypt(s, a + b) == Crypt(s, a) + Crypt(After(s, |a|), b)
  {
    hide After, KeyByte, Xor;
    if b == [] {
      assert a + b == a;
    } else {
      var n := |b| - 1;
      CryptConcat(s, a, b[..n]);
      AfterSum(s, |a|, n + 1);
      assert (a + b)[..|a| + n] == a + b[..n];
    }
  }

  lemma XorTwice(k: bv8, b: bv8)
    ensures Xor(k, Xor(k, b)) == b
  {
  }

  /** A second pass from the same state restores the input. */
  lemma {:induction false} CryptTwice(s: State, data: seq<bv8>)
    ensures Crypt(s, Crypt(s, data)) == data
  {
    hide After, KeyByte, Xor;
    if data != [] {
      var n := |data| - 1;
      var k := KeyByte(After(s, n + 1));
      CryptTwice(s, data[..n]);
      XorTwice(k, data[n]);
      assert Crypt(s, data)[..n] == Crypt(s, data[..n]);
    }
  }

  // Messages that arrive in pieces.

  function Joined(pieces: seq<seq<bv8>>): seq<bv8> {
    if pieces == [] then [] else pieces[0] + Joined(pieces[1..])
  }

  function CryptPieces(s: State, pieces: seq<seq<bv8>>): seq<seq<bv8>>
    decreases |pieces|
  {
    if pieces == [] then []
    else [Crypt(s, pieces[0])] + CryptPieces(After(s, |pieces[0]|), pieces[1..])
  }

  lemma {:induction false} PiecesJoin(s: State, pieces: seq<seq<bv8>>)
    ensures Joined(CryptPieces(s, pieces)) == Crypt(s, Joined(pieces))
    decreases |pieces|
  {
    hide After, Crypt;
    if pieces != [] {
      var t := After(s, |pieces[0]|);
      PiecesJoin(t, pieces[1..]);
      CryptConcat(s, pieces[0], Joined(pieces[1..]));
      assert CryptPieces(s, pieces)[1..] == CryptPieces(t, pieces[1..]);
    }
  }

  /** Sender and receiver with the same key need not cut the stream at the same places. */
  lemma PiecesRestore(s: State, sent: seq<seq<bv8>>, received: seq<seq<bv8>>)
    requires Joined(received) == Joined(CryptPieces(s, sent))
    ensures Joined(CryptPieces(s, received)) == Joined(sent)
  {
    hide After, Crypt, Joined, CryptPieces;
    PiecesJoin(s, sent);
    PiecesJoin(s, received);
    CryptTwice(s, Joined(sent));
  }

  // Key setup.

  function Identity(): Table { seq(256, i => i) }

  /** The key byte used in round n: the key is gone through again and again. */
  function Turn(n: nat, len: nat): (k: nat)
    requires len > 0
    ensures k < len
  {
    n % len
  }

  lemma TurnNext(n: nat, len: nat)
    requires len > 0
    ensures Turn(0, len) == 0
    ensures Turn(n + 1, len) == if Turn(n, len) + 1 == len then 0 else Turn(n, len) + 1
  {
    ModNext(n, len);
    ModUnique(0, 0, 0, len);
    var k := n % len + 1;
    if k == len {
      ModUnique(k, 1, 0, len);
    } else {
      ModUnique(k, 0, k, len);
    }
  }

  /** The first n rounds of key setup: table and mixing index. */
  function Mixed(key: seq<bv8>, n: nat): (r: (Table, nat))
    requires |key| > 0 && n <= 256
    ensures r.1 < 256
  {
    if n == 0 then (Identity(), 0)
    else
      var (d, j) := Mixed(key, n - 1);
      var j' := (j + d[n - 1] + Value(key[Turn(n - 1, |key|)])) % 256;
      (Swap(d, n - 1, j'), j')
  }

  lemma MixedNone(key: seq<bv8>)
    requires |key| > 0
    ensures Mixed(key, 0) == (Identity(), 0)
  {
  }

  function Keyed(key: seq<bv8>): State
    requires |key| > 0
  {
    State(Mixed(key, 256).0, 0, 0)
  }

  lemma {:induction false} MixedPermutation(key: seq<bv8>, n: nat)
    requires |key| > 0 && n <= 256
    ensures Permutation(Mixed(key, n).0)
  {
    hide Value;
    if n == 0 {
      forall v | 0 <= v < 256 ensures v in Identity() {
        assert Identity()[v] == v;
      }
    } else {
      MixedPermutation(key, n - 1);
      SwapKeeps(Mixed(key, n - 1).0, n - 1, Mixed(key, n).1);
    }
  }

  // What the cipher produces, worked out.

  /** A law of the keystream: if the table has 0 at place 2 and not 2 at place 1, the second key
      byte is 0, whatever the rest of the table. */
  lemma SecondByte(d: Table)
    requires Permutation(d) && d[2] == 0 && d[1] != 2
    ensures KeyByte(After(State(d, 0, 0), 2)) == 0
  {
    Zero();
    hide LowByte, After, KeyByte, Next;
    var x, s := d[1], State(d, 0, 0);
    assert x != 0;
    NoStep(s);
    var d1 := Swap(d, 1, x);
    StepTo(s, 0, s, 1, x, d1, (d1[1] + d1[x]) % 256);
    var d2 := Swap(d1, 2, x);
    StepTo(s, 1, State(d1, 1, x), 2, x, d2, x);
  }

  lemma Zero()
    ensures LowByte(0) == 0
  {
  }

  /** The first step from a fresh table: the byte is read where the two exchanged entries add up. */
  lemma FirstByte(d: Table)
    requires Permutation(d) && d[1] != 0
    ensures var s := After(State(d, 0, 0), 1);
            && s.x == 1 && s.y == d[1] && s.d[1] == d[d[1]] && s.d[d[1]] == d[1]
            && KeyByte(s) == LowByte(s.d[(d[1] + d[d[1]]) % 256])
  {
    assert After(State(d, 0, 0), 1) == Next(After(State(d, 0, 0), 0));
  }

  lemma NoStep(s: State)
    ensures After(s, 0) == s
  {
  }

  /** One step and its key byte, with the places it goes to spelt out. */
  lemma StepTo(s: State, n: nat, t: State, x: nat, y: nat, e: Table, k: nat)
    requires After(s, n) == t && x == (t.x + 1) % 256 && y == (t.y + t.d[x]) % 256
    requires e == Swap(t.d, x, y) && k == (e[x] + e[y]) % 256
    ensures After(s, n + 1) == State(e, x, y) && KeyByte(After(s, n + 1)) == LowByte(e[k])
  {
    hide LowByte;
  }

  /** From the table in order the key bytes are 2, 5, 7, 13. */
  lemma OrderedBytes()
    ensures var s := State(Identity(), 0, 0);
            && KeyByte(After(s, 1)) == 2 && KeyByte(After(s, 2)) == 5
            && KeyByte(After(s, 3)) == 7 && KeyByte(After(s, 4)) == 13
  {
    Byte2();
    Byte5();
    Byte7();
    Byte13();
    hide LowByte, After, KeyByte, Next;
    var d := Identity();
    var s := State(d, 0, 0);
    NoStep(s);
    var d2 := d[2 := 3][3 := 2];
    var d3 := d2[3 := 5][5 := 2];
    var d4 := d3[4 := 9][9 := 4];
    StepTo(s, 0, s, 1, 1, d, 2);
    StepTo(s, 1, State(d, 1, 1), 2, 3, d2, 5);
    StepTo(s, 2, State(d2, 2, 3), 3, 5, d3, 7);
    StepTo(s, 3, State(d3, 3, 5), 4, 9, d4, 13);
  }

  lemma Byte2()
    ensures LowByte(2) == 2
  {
  }

  lemma Byte5()
    ensures LowByte(5) == 5
  {
  }

  lemma Byte7()
    ensures LowByte(7) == 7
  {
  }

  lemma Byte13()
    ensures LowByte(13) == 13
  {
  }

  /** The key that leaves the table in order through all 256 rounds of key setup. */
  predicate OrderKey(key: seq<bv8>) {
    |key| == 256 && Value(key[0]) == 0 && forall i :: 1 <= i < 256 ==> Value(key[i]) == (257 - i) % 256
  }

  lemma OrderIndex(i: nat)
    ensures 1 <= i < 256 ==> (i - 1 + i + (257 - i) % 256) % 256 == i
  {
  }

  lemma {:induction false} OrderKeyRounds(key: seq<bv8>, n: nat)
    requires OrderKey(key) && n <= 256
    ensures Mixed(key, n) == (Identity(), if n == 0 then 0 else n - 1)
  {
    hide Value;
    if n > 0 {
      OrderKeyRounds(key, n - 1);
      var i := n - 1;
      ModUnique(i, 0, i, 256);
      assert Turn(i, 256) == i;
      hide Turn;
      OrderIndex(i);
      assert Swap(Identity(), i, i) == Identity();
    }
  }

  /** Key setup and cipher together: two bytes under that key. */
  lemma KnownText(key: seq<bv8>)
    requires OrderKey(key)
    ensures Keyed(key) == State(Identity(), 0, 0)
    ensures Crypt(Keyed(key), [0xff, 0x0f]) == [0xfd, 0x0a]
  {
    OrderKeyRounds(key, 256);
    OrderedBytes();
    Crossed();
    hide KeyByte, Xor, Mixed, After, OrderKey, Identity;
    var s, data := Keyed(key), [0xff, 0x0f];
    assert data[..1] == [0xff] && data[..1][..0] == [];
    assert Crypt(s, data[..1]) == Crypt(s, data[..1][..0]) + [Xor(KeyByte(After(s, 1)), data[..1][0])];
    assert Crypt(s, data) == Crypt(s, data[..1]) + [Xor(KeyByte(After(s, 2)), data[1])];
  }

  lemma Crossed()
    ensures Xor(2, 0xff) == 0xfd && Xor(5, 0x0f) == 0x0a
  {
  }

  lemma MixedNext(key: seq<bv8>, n: nat, j: nat)
    requires |key| > 0 && n < 256
    requires j == (Mixed(key, n).1 + Mixed(key, n).0[n] + Value(key[Turn(n, |key|)])) % 256
    ensures Mixed(key, n + 1) == (Swap(Mixed(key, n).0, n, j), j)
  {
    hide Value, Turn, Swap;
  }

  /** The first round of key setup, for every key: entry 0 and the entry that the key's first byte
      names are exchanged. */
  lemma FirstRound(key: seq<bv8>)
    requires |key| > 0
    ensures var r := Mixed(key, 1);
            && r.1 == Value(key[0]) && r.0[0] == r.1 && r.0[r.1] == 0
            && forall i :: 0 < i < 256 && i != r.1 ==> r.0[i] == i
  {
    ValueBelow(key[0]);
    MixedNone(key);
    TurnNext(0, |key|);
    hide Value, Mixed, Turn;
    MixedNext(key, 0, Value(key[0]));
  }

  lemma ValueBelow(b: bv8)
    ensures Value(b) < 256
  {
  }

  /** The first rounds under the key "Key", whose bytes are used again from the fourth on. */
  lemma KeyRounds()
    ensures var r := Mixed([0x4b, 0x65, 0x79], 5);
            && r.1 == 227 && r.0[0] == 75 && r.0[1] == 177 && r.0[2] == 44 && r.0[3] == 122 && r.0[4] == 227
            && r.0[75] == 0 && r.0[177] == 1 && r.0[122] == 3 && r.0[227] == 4
  {
    var key: seq<bv8> := [0x4b, 0x65, 0x79];
    KeyBytes();
    hide Value;
    assert Turn(0, 3) == 0 && Turn(1, 3) == 1 && Turn(2, 3) == 2 && Turn(3, 3) == 0 && Turn(4, 3) == 1;
    hide Turn;
    MixedNone(key);
    hide Mixed;
    MixedNext(key, 0, 75);
    MixedNext(key, 1, 177);
    MixedNext(key, 2, 44);
    MixedNext(key, 3, 122);
    MixedNext(key, 4, 227);
  }

  lemma KeyBytes()
    ensures Value(0x4b) == 75 && Value(0x65) == 101 && Value(0x79) == 121
  {
  }

  // The code.

  class Key {
    var x: nat
    var y: nat
    const data: array<nat>

    ghost predicate Valid()
      reads this, data
    {
      data.Length == 256 && Sound(Now())
    }

    /** The buffer is not the key's own table. */
    ghost predicate Apart(buffer: array<bv8>) {
      data as object != buffer
    }

    ghost function Now(): State
      reads this, data
      requires data.Length == 256
    {
      State(data[..], x, y)
    }

    constructor (key: array<bv8>, len: nat)
      requires 0 < len <= key.Length
      ensures fresh(data) && Valid() && Now() == Keyed(key[..len])
    {
      data := new nat[256];
      new;
      SetKey(key, len);
    }

    method SetKey(key: array<bv8>, len: nat)
      requires data.Length == 256 && 0 < len <= key.Length && Apart(key)
      modifies this, data
      ensures Valid() && Now() == Keyed(key[..len])
    {
      hide Value, Turn, Mixed;
      for i := 0 to 256
        invariant forall k :: 0 <= k < i ==> data[k] == k
      {
        data[i] := i;
      }
      x, y := 0, 0;
      var id1, id2, i := 0, 0, 0;
      assert data[..] == Identity();
      TurnNext(0, len);
      MixedNone(key[..len]);
      while i < 256
        invariant 0 <= i <= 256 && i % 4 == 0 && x == y == 0
        invariant id1 == Turn(i, len) && (data[..], id2) == Mixed(key[..len], i)
      {
        id1, id2 := Mix(i, id1, id2, key, len);
        id1, id2 := Mix(i + 1, id1, id2, key, len);
        id1, id2 := Mix(i + 2, id1, id2, key, len);
        id1, id2 := Mix(i + 3, id1, id2, key, len);
        i := i + 4;
      }
      MixedPermutation(key[..len], 256);
    }

    /** The SK_LOOP macro. */
    method Mix(n: nat, id1: nat, id2: nat, key: array<bv8>, len: nat) returns (id1': nat, id2': nat)
      requires data.Length == 256 && 0 < len <= key.Length && Apart(key) && n < 256
      requires id1 == Turn(n, len) && (data[..], id2) == Mixed(key[..len], n)
      modifies data
      ensures id1' == Turn(n + 1, len) && (data[..], id2') == Mixed(key[..len], n + 1)
    {
      hide Value, Turn;
      ghost var d := data[..];
      var tmp := data[n];
      id2' := (Value(key[id1]) + tmp + id2) % 256;
      id1' := id1 + 1;
      if id1' == len { id1' := 0; }
      data[n] := data[id2'];
      data[id2'] := tmp;
      assert data[..] == Swap(d, n, id2');
      TurnNext(n, len);
    }

    /** The LOOP macro on registers x and y. */
    method Loop(x0: nat, y0: nat, input: bv8) returns (x1: nat, y1: nat, output: bv8)
      requires data.Length == 256
      modifies data
      ensures State(data[..], x1, y1) == Next(old(State(data[..], x0, y0)))
      ensures output == Xor(KeyByte(State(data[..], x1, y1)), input)
    {
      hide Xor, LowByte;
      ghost var d := data[..];
      x1 := (x0 + 1) % 256;
      var tx := data[x1];
      y1 := (tx + y0) % 256;
      var ty := data[y1];
      data[x1] := ty;
      data[y1] := tx;
      assert data[..] == Swap(d, x1, y1);
      output := Xor(LowByte(data[(tx + ty) % 256]), input);
    }

    /** With registers x1 and y1, the first p bytes of the message are done, the rest still as given. */
    ghost predicate Reached(p: nat, x1: nat, y1: nat, indata: array<bv8>, outdata: array<bv8>,
                            start: State, message: seq<bv8>)
      reads data, indata, outdata
    {
      && data.Length == 256 && Apart(indata) && Apart(outdata)
      && p <= |message| <= indata.Length && |message| <= outdata.Length
      && State(data[..], x1, y1) == After(start, p)
      && outdata[..p] == Crypt(start, message[..p])
      && indata[p..|message|] == message[p..]
    }

    /** One LOOP at position p of the buffers, which may be the same buffer. */
    method Advance(x0: nat, y0: nat, p: nat, indata: array<bv8>, outdata: array<bv8>,
                   ghost start: State, ghost message: seq<bv8>)
      returns (x1: nat, y1: nat)
      requires p < |message| && Reached(p, x0, y0, indata, outdata, start, message)
      modifies data, outdata
      ensures Reached(p + 1, x1, y1, indata, outdata, start, message)
      ensures forall k :: |message| <= k < outdata.Length ==> outdata[k] == old(outdata[k])
    {
      hide KeyByte, Xor, Next;
      var b;
      assert indata[p] == message[p];
      ghost var kept, rest := outdata[..], indata[..];
      x1, y1, b := Loop(x0, y0, indata[p]);
      assert outdata[..] == kept && indata[..] == rest;
      outdata[p] := b;
      assert message[..p + 1][..p] == message[..p];
      assert outdata[..p + 1] == kept[..p] + [b];
      assert outdata[..p + 1] == Crypt(start, message[..p + 1]);
      assert indata[p + 1..|message|] == rest[p..|message|][1..] == message[p + 1..];
    }

    /** RC4: eight bytes at a time, then the tail; in place when both buffers are the same. */
    method Process(len: nat, indata: array<bv8>, outdata: array<bv8>)
      requires Valid() && Apart(indata) && Apart(outdata)
      requires len <= indata.Length && len <= outdata.Length
      modifies this, data, outdata
      ensures Valid() && Now() == After(old(Now()), len)
      ensures outdata[..len] == Crypt(old(Now()), old(indata[..len]))
      ensures outdata[len..] == old(outdata[len..])
    {
      hide KeyByte, Xor, After, Crypt, Permutation, Reached;
      ghost var start, message := Now(), indata[..len];
      AfterKeeps(start, len);
      var i, p, x1, y1 := len / 8, 0, x, y;
      Start(indata, outdata, message);
      while i > 0
        invariant 0 <= i && p + 8 * i + len % 8 == len
        invariant Reached(p, x1, y1, indata, outdata, start, message)
        invariant forall k :: len <= k < outdata.Length ==> outdata[k] == old(outdata[k])
      {
        x1, y1 := Advance(x1, y1, p, indata, outdata, start, message);
        x1, y1 := Advance(x1, y1, p + 1, indata, outdata, start, message);
        x1, y1 := Advance(x1, y1, p + 2, indata, outdata, start, message);
        x1, y1 := Advance(x1, y1, p + 3, indata, outdata, start, message);
        x1, y1 := Advance(x1, y1, p + 4, indata, outdata, start, message);
        x1, y1 := Advance(x1, y1, p + 5, indata, outdata, start, message);
        x1, y1 := Advance(x1, y1, p + 6, indata, outdata, start, message);
        x1, y1 := Advance(x1, y1, p + 7, indata, outdata, start, message);
        p, i := p + 8, i - 1;
      }
      i := len % 8;
      while i > 0
        invariant 0 <= i && p + i == len
        invariant Reached(p, x1, y1, indata, outdata, start, message)
        invariant forall k :: len <= k < outdata.Length ==> outdata[k] == old(outdata[k])
      {
        x1, y1 := Advance(x1, y1, p, indata, outdata, start, message);
        p, i := p + 1, i - 1;
      }
      Finish(x1, y1, indata, outdata, start, message);
      x, y := x1, y1;
    }

    lemma Start(indata: array<bv8>, outdata: array<bv8>, message: seq<bv8>)
      requires Valid() && Apart(indata) && Apart(outdata)
      requires |message| <= indata.Length && |message| <= outdata.Length && message == indata[..|message|]
      ensures Reached(0, x, y, indata, outdata, Now(), message)
    {
    }

    lemma Finish(x1: nat, y1: nat, indata: array<bv8>, outdata: array<bv8>, start: State, message: seq<bv8>)
      requires Reached(|message|, x1, y1, indata, outdata, start, message)
      ensures data.Length == 256 && State(data[..], x1, y1) == After(start, |message|)
      ensures |message| <= outdata.Length && outdata[..|message|] == Crypt(start, message)
    {
      assert message[..|message|] == message;
    }
  }

  /** Two parties with one key: what the second reads in place is what the first wrote. */
  method Exchange(key: array<bv8>, len: nat, plain: array<bv8>) returns (text: array<bv8>)
    requires 0 < len <= key.Length
    ensures text[..] == plain[..]
  {
    hide After, Crypt, Permutation, Mixed;
    var sender := new Key(key, len);
    var receiver := new Key(key, len);
    text := new bv8[plain.Length];
    sender.Process(plain.Length, plain, text);
    assert plain[..plain.Length] == plain[..] && text[..text.Length] == text[..];
    receiver.Process(text.Length, text, text);
    CryptTwice(Keyed(key[..len]), plain[..]);
    assert text[..text.Length] == text[..];
  }
}
