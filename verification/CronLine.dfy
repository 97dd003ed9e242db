/** The line parser of cron/cronjob.c and what it makes of well-formed lines. */
module CronLine {
  import opened CronMask

  // Lines and their meaning.

  datatype Field = Star | Every(step: string) | Numbers(nums: seq<string>)

  datatype Part = Part(field: Field, gap: string)

  /** Five fields, each followed by blanks, and a command. */
  datatype Line = Line(lead: string, parts: seq<Part>, cmd: string)

  predicate Blank(c: char) { c == ' ' || c == '\t' }

  predicate Digit(c: char) { '0' <= c <= '9' }

  function DigitValue(c: char): nat
    requires Digit(c)
  {
    c as int - '0' as int
  }

  predicate Blanks(s: string) { forall i :: 0 <= i < |s| ==> Blank(s[i]) }

  predicate Digits(s: string) { forall i :: 0 <= i < |s| ==> Digit(s[i]) }

  predicate Number(s: string) { s != [] && Digits(s) }

  /** Neither ends an element of a list. */
  predicate Inner(s: string) { forall i :: 0 <= i < |s| ==> !Blank(s[i]) && s[i] != ',' }

  /** An element of a list: a digit and anything up to the next comma or blank; characters that are
      not digits are passed over. */
  predicate Element(s: string) { s != [] && Digit(s[0]) && Inner(s) }

  /** The decimal number that begins with v and goes on with the digits of s. */
  function ValueFrom(v: nat, s: string): nat
    decreases |s|
  {
    if s == [] then v else ValueFrom(if Digit(s[0]) then v * 10 + DigitValue(s[0]) else v, s[1..])
  }

  function Value(s: string): nat { ValueFrom(0, s) }

  predicate AllElements(nums: seq<string>) { forall i :: 0 <= i < |nums| ==> Element(nums[i]) }

  predicate Listed(nums: seq<string>, k: nat) {
    exists i :: 0 <= i < |nums| && ElementIs(nums[i], k)
  }

  predicate ElementIs(s: string, k: nat) { Value(s) == k }

  predicate FieldOk(f: Field) {
    match f
    case Star => true
    case Every(step) => Number(step) && Value(step) > 0
    case Numbers(nums) => nums != [] && AllElements(nums)
  }

  predicate LineOk(l: Line) {
    && Blanks(l.lead) && |l.parts| == 5 && PartsOk(l.parts)
    && l.cmd != [] && !Blank(l.cmd[0])
  }

  predicate PartsOk(parts: seq<Part>) {
    forall i :: 0 <= i < |parts| ==> FieldOk(parts[i].field) && parts[i].gap != [] && Blanks(parts[i].gap)
  }

  function Commas(nums: seq<string>): string {
    if nums == [] then [] else nums[0] + if |nums| == 1 then [] else "," + Commas(nums[1..])
  }

  function FieldText(f: Field): string {
    match f
    case Star => "*"
    case Every(step) => "*/" + step
    case Numbers(nums) => Commas(nums)
  }

  function PartsText(parts: seq<Part>): string {
    if parts == [] then [] else FieldText(parts[0].field) + parts[0].gap + PartsText(parts[1..])
  }

  function Text(l: Line): string { l.lead + PartsText(l.parts) + l.cmd }

  predicate Multiple(n: nat, k: nat)
    requires n > 0
  {
    k % n == 0
  }

  /** The field admits the value k. */
  predicate Denotes(f: Field, k: nat)
    requires FieldOk(f)
  {
    match f
    case Star => true
    case Every(step) => Multiple(Value(step), k)
    case Numbers(nums) => Listed(nums, k)
  }

  // The parser, character by character.

  datatype Times = Times(min: bv64, hour: bv32, day: bv32, mon: bv32, wday: bv32)

  datatype Verdict = Parsed(tbl: Times, cmd: string) | Rejected | DividedByZero

  datatype Scanner = Scanner(state: int, newfield: bool, f: nat, n: nat, i64: bv64, i32: bv32, tbl: Times)

  const BLANK_TIMES := Times(0, 0, 0, 0, 0)

  const START := Scanner(0, false, 0, 0, 0, 0, BLANK_TIMES)

  function Put(t: Times, f: nat, i64: bv64, i32: bv32): Times {
    match f
    case 1 => t.(min := i64)
    case 2 => t.(hour := i32)
    case 3 => t.(day := i32)
    case 4 => t.(mon := i32)
    case 5 => t.(wday := i32)
    case _ => t
  }

  /** The start of state 0 after a field: its mask goes to the table. */
  function Save(p: Scanner): Scanner {
    Scanner(if p.f == 4 then 6 else 0, false, p.f + 1, 0, 0, 0, Put(p.tbl, p.f + 1, p.i64, p.i32))
  }

  function Close(p: Scanner, m64: bv64, m32: bv32): Scanner {
    p.(state := 0, newfield := true, n := 0, i64 := m64, i32 := m32)
  }

  function Mask64(n: nat): bv64 { if n < 63 then Bit64(n) else 0 }

  function Mask32(n: nat): bv32 { if n < 32 then Bit32(n) else 0 }

  /** The masks of a step after j rounds of its loop. */
  function StepMask64(n: nat, j: nat): bv64
    requires n > 0 && j <= 63
  {
    if j == 0 then 0
    else if Multiple(n, j - 1) then Or64(StepMask64(n, j - 1), Bit64(j - 1)) else StepMask64(n, j - 1)
  }

  function StepMask32(n: nat, j: nat): bv32
    requires n > 0 && j <= 63
  {
    if j == 0 then 0
    else if Multiple(n, j - 1) then Or32(StepMask32(n, j - 1), Bit32(j - 1)) else StepMask32(n, j - 1)
  }

  predicate Reading(p: Scanner) { 0 <= p.state < 6 && !(p.state == 0 && p.newfield) }

  predicate Divides0(p: Scanner, c: char) { p.state == 5 && Blank(c) && p.n == 0 }

  function Feed(p: Scanner, pos: nat, c: char): Scanner
    requires Reading(p) && !Divides0(p, c)
  {
    var fail := p.(state := -1);
    match p.state
    case 0 =>
      if Blank(c) then p.(n := 0, i64 := 0, i32 := 0)
      else if c == '*' then p.(state := 1, n := 0, i64 := 0, i32 := 0)
      else if Digit(c) then p.(state := 2, n := DigitValue(c), i64 := 0, i32 := 0)
      else fail
    case 1 =>
      if Blank(c) then Close(p, STAR64, STAR32) else if c == '/' then p.(state := 3) else fail
    case 2 =>
      if Blank(c) then Close(p, Or64(p.i64, Mask64(p.n)), Or32(p.i32, Mask32(p.n)))
      else if Digit(c) then p.(n := p.n * 10 + DigitValue(c))
      else if c == ',' then p.(state := 4, i64 := Or64(p.i64, Mask64(p.n)), i32 := Or32(p.i32, Mask32(p.n)))
      else p
    case 3 => if Digit(c) then p.(state := 5, n := DigitValue(c)) else fail
    case 4 => if Digit(c) then p.(state := 2, n := DigitValue(c)) else fail
    case 5 =>
      if Blank(c) then Close(p, StepMask64(p.n, 63), if pos < 32 then StepMask32(p.n, 63) else 0)
      else if Digit(c) then p.(n := p.n * 10 + DigitValue(c))
      else fail
  }

  function Scan(p: Scanner, pos: nat, rest: string): Verdict
    decreases |rest|, p.newfield
  {
    if rest == [] then Rejected
    else if p.state == 0 && p.newfield then Scan(Save(p), pos, rest)
    else if p.state == 6 then if Blank(rest[0]) then Scan(p, pos + 1, rest[1..]) else Parsed(p.tbl, rest)
    else if !Reading(p) then Rejected
    else if Divides0(p, rest[0]) then DividedByZero
    else Scan(Feed(p, pos, rest[0]), pos + 1, rest[1..])
  }

  lemma ScanOne(p: Scanner, pos: nat, c: char, rest: string)
    requires Reading(p) && !Divides0(p, c)
    ensures Scan(p, pos, [c] + rest) == Scan(Feed(p, pos, c), pos + 1, rest)
  {
    assert ([c] + rest)[1..] == rest;
  }

  lemma ScanSave(p: Scanner, pos: nat, rest: string)
    requires p.state == 0 && p.newfield && rest != []
    ensures Scan(p, pos, rest) == Scan(Save(p), pos, rest)
  {
  }

  lemma ScanCommand(p: Scanner, pos: nat, c: char, rest: string)
    requires p.state == 6
    ensures Scan(p, pos, [c] + rest) == if Blank(c) then Scan(p, pos + 1, rest) else Parsed(p.tbl, [c] + rest)
  {
    assert ([c] + rest)[1..] == rest;
  }

  lemma ScanFailed(p: Scanner, pos: nat, rest: string)
    requires rest == [] || p.state < 0 || p.state > 6
    ensures Scan(p, pos, rest) == Rejected
  {
  }

  lemma ScanDivides(p: Scanner, pos: nat, c: char, rest: string)
    requires Divides0(p, c)
    ensures Scan(p, pos, [c] + rest) == DividedByZero
  {
  }

  /** Between fields, and before the command, blanks are passed over. */
  lemma {:induction false} ScanBlanks(p: Scanner, pos: nat, gap: string, rest: string)
    requires Blanks(gap)
    requires p.state == 6 || (p.state == 0 && !p.newfield && p.n == 0 && p.i64 == 0 && p.i32 == 0)
    ensures Scan(p, pos, gap + rest) == Scan(p, pos + |gap|, rest)
    decreases |gap|
  {
    hide Save;
    if gap == [] {
      assert gap + rest == rest;
    } else {
      assert (gap + rest)[1..] == gap[1..] + rest;
      ScanBlanks(p, pos + 1, gap[1..], rest);
    }
  }

  lemma {:induction false} ScanDigits(p: Scanner, pos: nat, ds: string, rest: string)
    requires (p.state == 2 && Inner(ds)) || (p.state == 5 && Digits(ds))
    ensures Scan(p, pos, ds + rest) == Scan(p.(n := ValueFrom(p.n, ds)), pos + |ds|, rest)
    decreases |ds|
  {
    hide Scan;
    if ds == [] {
      assert ds + rest == rest;
      assert p.(n := ValueFrom(p.n, ds)) == p;
    } else {
      var p' := p.(n := if Digit(ds[0]) then p.n * 10 + DigitValue(ds[0]) else p.n);
      assert ds + rest == [ds[0]] + (ds[1..] + rest);
      ScanOne(p, pos, ds[0], ds[1..] + rest);
      ScanDigits(p', pos + 1, ds[1..], rest);
      assert p'.(n := ValueFrom(p'.n, ds[1..])) == p.(n := ValueFrom(p.n, ds));
    }
  }

  /** A number read from a state that expects its first digit. */
  lemma ScanNumber(p: Scanner, pos: nat, ds: string, rest: string, state: int)
    requires Reading(p) && if state == 2 then Element(ds) else Number(ds)
    requires p.state == 0 || p.state == 3 || p.state == 4
    requires p.state == 0 ==> p.i64 == 0 && p.i32 == 0
    requires state == if p.state == 3 then 5 else 2
    ensures Scan(p, pos, ds + rest) == Scan(p.(state := state, n := Value(ds)), pos + |ds|, rest)
  {
    hide Scan;
    assert ds + rest == [ds[0]] + (ds[1..] + rest);
    ScanOne(p, pos, ds[0], ds[1..] + rest);
    var p' := p.(state := state, n := DigitValue(ds[0]));
    assert Feed(p, pos, ds[0]) == p';
    ScanDigits(p', pos + 1, ds[1..], rest);
    assert Value(ds) == ValueFrom(DigitValue(ds[0]), ds[1..]);
    assert p'.(n := Value(ds)) == p.(state := state, n := Value(ds));
  }

  // Fields.

  function NumbersMask64(m: bv64, nums: seq<string>): bv64
    requires AllElements(nums)
    decreases |nums|
  {
    if nums == [] then m else NumbersMask64(Or64(m, Mask64(Value(nums[0]))), nums[1..])
  }

  function NumbersMask32(m: bv32, nums: seq<string>): bv32
    requires AllElements(nums)
    decreases |nums|
  {
    if nums == [] then m else NumbersMask32(Or32(m, Mask32(Value(nums[0]))), nums[1..])
  }

  lemma {:induction false} ScanNumbers(p: Scanner, pos: nat, nums: seq<string>, b: char, rest: string)
    requires nums != [] && Blank(b) && Reading(p)
    requires AllElements(nums)
    requires (p.state == 0 && p.i64 == 0 && p.i32 == 0) || p.state == 4
    ensures Scan(p, pos, Commas(nums) + [b] + rest)
         == Scan(Close(p, NumbersMask64(p.i64, nums), NumbersMask32(p.i32, nums)), pos + |Commas(nums)| + 1, rest)
    decreases |nums|
  {
    hide Scan, Value, Mask64, Mask32, Or64, Or32;
    var n, tail := Value(nums[0]), nums[1..];
    var q := p.(state := 2, n := n);
    var m64, m32 := Or64(p.i64, Mask64(n)), Or32(p.i32, Mask32(n));
    if |nums| == 1 {
      assert Commas(nums) + [b] + rest == nums[0] + ([b] + rest);
      ScanNumber(p, pos, nums[0], [b] + rest, 2);
      ScanOne(q, pos + |nums[0]|, b, rest);
      assert Feed(q, pos + |nums[0]|, b) == Close(p, m64, m32);
      assert tail == [];
    } else {
      var rest' := Commas(tail) + [b] + rest;
      assert Commas(nums) + [b] + rest == nums[0] + ([','] + rest');
      ScanNumber(p, pos, nums[0], [','] + rest', 2);
      ScanOne(q, pos + |nums[0]|, ',', rest');
      var q' := q.(state := 4, i64 := m64, i32 := m32);
      assert Feed(q, pos + |nums[0]|, ',') == q';
      ScanNumbers(q', pos + |nums[0]| + 1, tail, b, rest);
      assert Close(q', NumbersMask64(m64, tail), NumbersMask32(m32, tail))
          == Close(p, NumbersMask64(p.i64, nums), NumbersMask32(p.i32, nums));
    }
  }

  /** The masks of a field whose closing blank is at index pos of the line. */
  function FieldMask64(f: Field): bv64
    requires FieldOk(f)
  {
    match f
    case Star => STAR64
    case Every(step) => StepMask64(Value(step), 63)
    case Numbers(nums) => NumbersMask64(0, nums)
  }

  function FieldMask32(f: Field, pos: nat): bv32
    requires FieldOk(f)
  {
    match f
    case Star => STAR32
    case Every(step) => if pos < 32 then StepMask32(Value(step), 63) else 0
    case Numbers(nums) => NumbersMask32(0, nums)
  }

  predicate Fresh(p: Scanner) { p.state == 0 && !p.newfield && p.n == 0 && p.i64 == 0 && p.i32 == 0 }

  lemma ScanField(p: Scanner, pos: nat, f: Field, b: char, rest: string)
    requires FieldOk(f) && Blank(b) && Fresh(p)
    ensures var end := pos + |FieldText(f)|;
            var q := Close(p, FieldMask64(f), FieldMask32(f, end));
            Scan(p, pos, FieldText(f) + [b] + rest) == Scan(q, end + 1, rest)
  {
    hide Scan, Value, StepMask64, StepMask32, NumbersMask64, NumbersMask32;
    match f
    case Star =>
      assert FieldText(f) + [b] + rest == ['*'] + ([b] + rest);
      ScanOne(p, pos, '*', [b] + rest);
      ScanOne(p.(state := 1), pos + 1, b, rest);
    case Every(step) =>
      assert FieldText(f) + [b] + rest == ['*'] + (['/'] + (step + ([b] + rest)));
      ScanOne(p, pos, '*', ['/'] + (step + ([b] + rest)));
      ScanOne(p.(state := 1), pos + 1, '/', step + ([b] + rest));
      ScanNumber(p.(state := 3), pos + 2, step, [b] + rest, 5);
      ScanOne(p.(state := 5, n := Value(step)), pos + 2 + |step|, b, rest);
    case Numbers(nums) =>
      ScanNumbers(p, pos, nums, b, rest);
  }

  /** A step of zero makes the code divide by zero at the closing blank. */
  lemma ZeroStep(p: Scanner, pos: nat, step: string, b: char, rest: string)
    requires Number(step) && Value(step) == 0 && Blank(b) && Fresh(p)
    ensures Scan(p, pos, "*/" + step + [b] + rest) == DividedByZero
  {
    hide Scan, Value;
    assert "*/" + step + [b] + rest == ['*'] + (['/'] + (step + ([b] + rest)));
    ScanOne(p, pos, '*', ['/'] + (step + ([b] + rest)));
    ScanOne(p.(state := 1), pos + 1, '/', step + ([b] + rest));
    ScanNumber(p.(state := 3), pos + 2, step, [b] + rest, 5);
    ScanDivides(p.(state := 5, n := 0), pos + 2 + |step|, b, rest);
  }

  // Whole lines.

  function SaveAll(p: Scanner, pos: nat, parts: seq<Part>): Scanner
    requires PartsOk(parts)
    decreases |parts|
  {
    if parts == [] then p
    else
      var f, end := parts[0].field, pos + |FieldText(parts[0].field)|;
      SaveAll(Save(Close(p, FieldMask64(f), FieldMask32(f, end))), end + |parts[0].gap|, parts[1..])
  }

  lemma {:induction false} ScanParts(p: Scanner, pos: nat, parts: seq<Part>, rest: string)
    requires PartsOk(parts) && rest != [] && p.f + |parts| <= 5 && (parts != [] ==> Fresh(p))
    ensures Scan(p, pos, PartsText(parts) + rest) == Scan(SaveAll(p, pos, parts), pos + |PartsText(parts)|, rest)
    decreases |parts|
  {
    hide Scan, FieldMask64, FieldMask32, FieldText, FieldOk;
    if parts == [] {
      assert PartsText(parts) + rest == rest;
    } else {
      var f, gap, rest' := parts[0].field, parts[0].gap, PartsText(parts[1..]) + rest;
      var end := pos + |FieldText(f)|;
      var q := Close(p, FieldMask64(f), FieldMask32(f, end));
      assert PartsText(parts) + rest == FieldText(f) + [gap[0]] + (gap[1..] + rest');
      ScanField(p, pos, f, gap[0], gap[1..] + rest');
      ScanSave(q, end + 1, gap[1..] + rest');
      ScanBlanks(Save(q), end + 1, gap[1..], rest');
      ScanParts(Save(q), end + |gap|, parts[1..], rest);
    }
  }

  /** The index in the line of the blank that closes field g. */
  function ClosedAt(l: Line, g: nat): nat
    requires g < |l.parts|
  {
    |l.lead| + |PartsText(l.parts[..g])| + |FieldText(l.parts[g].field)|
  }

  function TimesOf(l: Line): Times
    requires LineOk(l)
  {
    Times(FieldMask64(l.parts[0].field), Mask(l, 1), Mask(l, 2), Mask(l, 3), Mask(l, 4))
  }

  function Mask(l: Line, g: nat): bv32
    requires LineOk(l) && g < 5
  {
    FieldMask32(l.parts[g].field, ClosedAt(l, g))
  }

  lemma {:induction false} PartsTextSnoc(parts: seq<Part>, p: Part)
    ensures PartsText(parts + [p]) == PartsText(parts) + (FieldText(p.field) + p.gap)
  {
    if parts == [] {
      assert parts + [p] == [p] && [p][1..] == [];
    } else {
      assert (parts + [p])[1..] == parts[1..] + [p];
      PartsTextSnoc(parts[1..], p);
    }
  }

  /** The scanner after the first g fields of a line. */
  function Filled(l: Line, g: nat): Scanner
    requires LineOk(l) && g <= 5
  {
    var t := TimesOf(l);
    Scanner(if g == 5 then 6 else 0, false, g, 0, 0, 0,
            Times(if g >= 1 then t.min else 0, if g >= 2 then t.hour else 0, if g >= 3 then t.day else 0,
                  if g >= 4 then t.mon else 0, if g >= 5 then t.wday else 0))
  }

  lemma FillNext(l: Line, g: nat)
    requires LineOk(l) && g < 5
    ensures var f := l.parts[g].field;
            Save(Close(Filled(l, g), FieldMask64(f), FieldMask32(f, ClosedAt(l, g)))) == Filled(l, g + 1)
  {
    hide FieldMask64, FieldMask32, ClosedAt, FieldOk;
  }

  lemma {:induction false} SaveAllFills(l: Line, g: nat)
    requires LineOk(l) && g <= 5
    ensures SaveAll(Filled(l, g), |l.lead| + |PartsText(l.parts[..g])|, l.parts[g..]) == Filled(l, 5)
    decreases 5 - g
  {
    hide FieldMask64, FieldMask32, FieldText, FieldOk, PartsText, Save, Close, Filled;
    if g < 5 {
      var part := l.parts[g];
      var p, end := Filled(l, g), ClosedAt(l, g);
      FillNext(l, g);
      assert l.parts[g..][1..] == l.parts[g + 1..] && l.parts[..g + 1] == l.parts[..g] + [part];
      PartsTextSnoc(l.parts[..g], part);
      SaveAllFills(l, g + 1);
    }
  }

  /** Every well-formed line is accepted, with the masks of its fields and its command text. */
  lemma LineParsed(l: Line)
    requires LineOk(l)
    ensures Scan(START, 0, Text(l)) == Parsed(TimesOf(l), l.cmd)
  {
    hide FieldMask64, FieldMask32, FieldText, FieldOk, Feed, SaveAll;
    var lead, pos := l.lead, |l.lead|;
    assert Text(l) == lead + (PartsText(l.parts) + l.cmd);
    ScanBlanks(START, 0, lead, PartsText(l.parts) + l.cmd);
    ScanParts(START, pos, l.parts, l.cmd);
    assert l.parts[..0] == [] && l.parts[0..] == l.parts && START == Filled(l, 0);
    SaveAllFills(l, 0);
  }

  // Lines whose steps may be zero.

  predicate ShapeOk(f: Field) {
    if f.Every? then Number(f.step) else FieldOk(f)
  }

  predicate Zero(f: Field) { f.Every? && Number(f.step) && Value(f.step) == 0 }

  predicate LineShaped(l: Line) {
    && Blanks(l.lead) && |l.parts| == 5 && l.cmd != [] && !Blank(l.cmd[0])
    && forall i :: 0 <= i < 5 ==> ShapeOk(l.parts[i].field) && l.parts[i].gap != [] && Blanks(l.parts[i].gap)
  }

  predicate NoZero(parts: seq<Part>) { forall i :: 0 <= i < |parts| ==> !Zero(parts[i].field) }

  lemma {:induction false} PartsTextConcat(a: seq<Part>, b: seq<Part>)
    ensures PartsText(a + b) == PartsText(a) + PartsText(b)
    decreases |b|
  {
    hide PartsText, FieldText;
    if b == [] {
      assert a + b == a;
      PartsTextNone();
    } else {
      var n := |b| - 1;
      assert a + b == (a + b[..n]) + [b[n]] && b == b[..n] + [b[n]];
      PartsTextSnoc(a + b[..n], b[n]);
      PartsTextSnoc(b[..n], b[n]);
      PartsTextConcat(a, b[..n]);
    }
  }

  lemma PartsTextNone()
    ensures PartsText([]) == []
  {
  }

  lemma {:induction false} SaveAllFresh(p: Scanner, pos: nat, parts: seq<Part>)
    requires PartsOk(parts) && Fresh(p) && p.f + |parts| < 5
    ensures Fresh(SaveAll(p, pos, parts))
    decreases |parts|
  {
    hide FieldMask64, FieldMask32, FieldText, FieldOk;
    if parts != [] {
      var f, end := parts[0].field, pos + |FieldText(parts[0].field)|;
      SaveAllFresh(Save(Close(p, FieldMask64(f), FieldMask32(f, end))), end + |parts[0].gap|, parts[1..]);
    }
  }

  /** The first zero step of a line stops the parser. */
  lemma FirstZero(l: Line, g: nat)
    requires LineShaped(l) && g < 5 && NoZero(l.parts[..g]) && Zero(l.parts[g].field)
    ensures Scan(START, 0, Text(l)) == DividedByZero
  {
    hide Scan, Value, FieldMask64, FieldMask32, PartsText, SaveAll;
    var a, part, pos := l.parts[..g], l.parts[g], |l.lead|;
    var after := part.gap[1..] + (PartsText(l.parts[g + 1..]) + l.cmd);
    var rest := "*/" + part.field.step + [part.gap[0]] + after;
    TextAround(l, g);
    ScanBlanks(START, 0, l.lead, PartsText(a) + rest);
    ScanParts(START, pos, a, rest);
    SaveAllFresh(START, pos, a);
    ZeroStep(SaveAll(START, pos, a), pos + |PartsText(a)|, part.field.step, part.gap[0], after);
  }

  lemma TextAround(l: Line, g: nat)
    requires g < |l.parts| && l.parts[g].field.Every? && l.parts[g].gap != []
    ensures var part := l.parts[g];
            var after := part.gap[1..] + (PartsText(l.parts[g + 1..]) + l.cmd);
            Text(l) == l.lead + (PartsText(l.parts[..g]) + ("*/" + part.field.step + [part.gap[0]] + after))
  {
    hide PartsText;
    var part := l.parts[g];
    assert l.parts == l.parts[..g] + [part] + l.parts[g + 1..];
    PartsTextConcat(l.parts[..g] + [part], l.parts[g + 1..]);
    PartsTextSnoc(l.parts[..g], part);
    assert part.gap == [part.gap[0]] + part.gap[1..];
  }

  /** A line of five well-shaped fields is parsed, with the masks of its fields, if no step is
      zero; otherwise, and only then, the parser divides by zero. */
  lemma LineVerdict(l: Line)
    requires LineShaped(l)
    ensures Scan(START, 0, Text(l)) == DividedByZero <==> !NoZero(l.parts)
    ensures NoZero(l.parts) <==> LineOk(l)
    ensures LineOk(l) ==> Scan(START, 0, Text(l)) == Parsed(TimesOf(l), l.cmd)
  {
    hide Scan, Value, TimesOf, Text;
    if NoZero(l.parts) {
      LineParsed(l);
    } else {
      var g := Earliest(l.parts);
      FirstZero(l, g);
    }
  }

  lemma {:induction false} Earliest(parts: seq<Part>) returns (g: nat)
    requires !NoZero(parts)
    ensures g < |parts| && Zero(parts[g].field) && NoZero(parts[..g])
  {
    hide Zero;
    var n := |parts| - 1;
    if NoZero(parts[..n]) {
      g := n;
    } else {
      g := Earliest(parts[..n]);
      assert parts[..n][..g] == parts[..g];
    }
  }

  // The line "0 */0 * * * job".
  const ZERO_LINE := Line([], [Part(Numbers(["0"]), " "), Part(Every("0"), " "),
                               Part(Star, " "), Part(Star, " "), Part(Star, " ")], "job")

  lemma ZeroLine()
    ensures Scan(START, 0, Text(ZERO_LINE)) == DividedByZero
  {
    var l := ZERO_LINE;
    assert Value("0") == 0 by { assert "0"[1..] == []; }
    assert Zero(l.parts[1].field);
    LineVerdict(l);
  }

  // The masks hold exactly the values the fields denote.

  lemma {:induction false} StepBits(n: nat, j: nat, k: nat)
    requires n > 0 && j <= 63 && k < 64
    ensures Has64(StepMask64(n, j), k) <==> k < j && Multiple(n, k)
    ensures k < 32 ==> (Has32(StepMask32(n, j), k) <==> k < j && Multiple(n, k))
  {
    hide Has64, Has32, Or64, Or32, Bit64, Bit32, Multiple;
    if j == 0 {
      HasNone(k);
    } else {
      StepBits(n, j - 1, k);
      HasOr(StepMask64(n, j - 1), Bit64(j - 1), StepMask32(n, j - 1), Bit32(j - 1), k);
      HasBit(j - 1, k);
    }
  }

  lemma MaskBits(n: nat, k: nat)
    requires k < 64
    ensures Has64(Mask64(n), k) <==> n == k && n < 63
    ensures k < 32 ==> (Has32(Mask32(n), k) <==> n == k)
  {
    hide Has64, Has32, Bit64, Bit32;
    HasNone(k);
    if n < 63 {
      HasBit(n, k);
    }
  }

  lemma {:induction false} NumbersBits(m: bv64, m': bv32, nums: seq<string>, k: nat)
    requires k < 64 && AllElements(nums)
    ensures Has64(NumbersMask64(m, nums), k)
       <==> Has64(m, k) || (k < 63 && Listed(nums, k))
    ensures k < 32 ==> (Has32(NumbersMask32(m', nums), k)
       <==> Has32(m', k) || Listed(nums, k))
    decreases |nums|
  {
    hide Has64, Has32, Or64, Or32, Mask64, Mask32, Value, Listed;
    Uncons(nums, k);
    if nums != [] {
      var n, tail := Value(nums[0]), nums[1..];
      MaskBits(n, k);
      HasOr(m, Mask64(n), m', Mask32(n), k);
      NumbersBits(Or64(m, Mask64(n)), Or32(m', Mask32(n)), tail, k);
    }
  }

  lemma Uncons(nums: seq<string>, k: nat)
    requires AllElements(nums)
    ensures Listed(nums, k) <==> nums != [] && (Value(nums[0]) == k || Listed(nums[1..], k))
  {
    hide Value;
    if nums == [] { return; }
    var tail := nums[1..];
    assert ElementIs(nums[0], Value(nums[0]));
    if i :| 0 <= i < |nums| && ElementIs(nums[i], k) {
      assert i > 0 ==> tail[i - 1] == nums[i];
    }
    if i :| 0 <= i < |tail| && ElementIs(tail[i], k) {
      assert nums[i + 1] == tail[i];
    }
  }

  /** Bit k is set exactly when the field denotes k; a step loses all its short-word bits past index 31. */
  lemma FieldBits(f: Field, pos: nat, k: nat)
    requires FieldOk(f) && k < 64
    ensures Has64(FieldMask64(f), k) <==> k < 63 && Denotes(f, k)
    ensures k < 32 ==> (Has32(FieldMask32(f, pos), k) <==> Denotes(f, k) && (f.Every? ==> pos < 32))
  {
    hide Has64, Has32, Value, Multiple, StepMask64, StepMask32, NumbersMask64, NumbersMask32;
    HasNone(k);
    match f
    case Star => HasStar(k);
    case Every(step) => StepBits(Value(step), 63, k);
    case Numbers(nums) => NumbersBits(0, 0, nums, k);
  }

  /** A short-word mask is right for every value if and only if a step closes before index 32. */
  lemma StepExact(f: Field, pos: nat)
    requires FieldOk(f)
    ensures (forall k :: 0 <= k < 32 ==> (Has32(FieldMask32(f, pos), k) <==> Denotes(f, k)))
       <==> (f.Every? ==> pos < 32)
  {
    hide Has32, Value, FieldMask32;
    forall k | 0 <= k < 32
      ensures Has32(FieldMask32(f, pos), k) <==> Denotes(f, k) && (f.Every? ==> pos < 32)
    {
      FieldBits(f, pos, k);
    }
    assert f.Every? ==> Denotes(f, 0);
  }
}
