/** Which strings the cron parser accepts, which make it divide by zero, and which it rejects. */
module CronGrammar {
  import opened Decimals
  import opened CronLine

  // The three kinds of strings.

  /** A line: blanks, five fields each closed by blanks, and a command. */
  ghost predicate IsLine(s: string) { exists l :: LineOk(l) && Text(l) == s }

  /** Blanks, fewer than five good fields, and then a step of zero closed by a blank. */
  datatype Halt = Halt(lead: string, parts: seq<Part>, step: string, b: char, rest: string)

  predicate HaltOk(h: Halt) {
    && Blanks(h.lead) && |h.parts| < 5 && PartsOk(h.parts)
    && Number(h.step) && Value(h.step) == 0 && Blank(h.b)
  }

  function StepText(step: string, b: char, rest: string): string { "*/" + step + [b] + rest }

  function HaltText(h: Halt): string { h.lead + (PartsText(h.parts) + StepText(h.step, h.b, h.rest)) }

  ghost predicate StopsAtZero(s: string) { exists h :: HaltOk(h) && HaltText(h) == s }

  lemma HaltDivides(h: Halt)
    requires HaltOk(h)
    ensures Scan(START, 0, HaltText(h)) == DividedByZero
  {
    hide Scan, Value, PartsText, SaveAll, PartsOk;
    var pos := |h.lead|;
    var rest := StepText(h.step, h.b, h.rest);
    ScanBlanks(START, 0, h.lead, PartsText(h.parts) + rest);
    ScanParts(START, pos, h.parts, rest);
    SaveAllFresh(START, pos, h.parts);
    ZeroStep(SaveAll(START, pos, h.parts), pos + |PartsText(h.parts)|, h.step, h.b, h.rest);
  }

  // Reading a string back: each step finds the next piece, or the parser rejects.

  lemma Rejects(p: Scanner, pos: nat, c: char, rest: string)
    requires Reading(p) && !Divides0(p, c) && Feed(p, pos, c).state < 0
    ensures Scan(p, pos, [c] + rest) == Rejected
  {
    hide Scan, Feed;
    ScanOne(p, pos, c, rest);
    ScanFailed(Feed(p, pos, c), pos + 1, rest);
  }

  lemma {:induction false} ReadDigits(p: Scanner, pos: nat, s: string)
    returns (ok: bool, ds: string, b: char, after: string)
    requires p.state == 5
    ensures ok ==> s == ds + [b] + after && Digits(ds) && Blank(b)
    ensures !ok ==> Scan(p, pos, s) == Rejected
    decreases |s|
  {
    hide Scan;
    ok, ds, b, after := false, [], ' ', [];
    if s == [] {
      ScanFailed(p, pos, s);
    } else {
      var c, rest := s[0], s[1..];
      assert s == [c] + rest;
      if Blank(c) {
        ok, b, after := true, c, rest;
      } else if Digit(c) {
        ScanOne(p, pos, c, rest);
        ok, ds, b, after := ReadDigits(Feed(p, pos, c), pos + 1, rest);
        ds := [c] + ds;
      } else {
        Rejects(p, pos, c, rest);
      }
    }
  }

  lemma {:induction false} ReadElement(p: Scanner, pos: nat, s: string)
    returns (ok: bool, e: string, c: char, after: string)
    requires p.state == 2
    ensures ok ==> s == e + [c] + after && Inner(e) && (Blank(c) || c == ',')
    ensures !ok ==> Scan(p, pos, s) == Rejected
    decreases |s|
  {
    hide Scan;
    ok, e, c, after := false, [], ' ', [];
    if s == [] {
      ScanFailed(p, pos, s);
    } else {
      var first, rest := s[0], s[1..];
      assert s == [first] + rest;
      if Blank(first) || first == ',' {
        ok, c, after := true, first, rest;
      } else {
        ScanOne(p, pos, first, rest);
        ok, e, c, after := ReadElement(Feed(p, pos, first), pos + 1, rest);
        e := [first] + e;
      }
    }
  }

  lemma {:induction false} ReadNumbers(p: Scanner, pos: nat, s: string)
    returns (ok: bool, nums: seq<string>, b: char, after: string)
    requires p.state == 4 || (Fresh(p) && s != [] && Digit(s[0]))
    ensures ok ==> nums != [] && AllElements(nums) && Blank(b) && s == Commas(nums) + [b] + after
    ensures !ok ==> Scan(p, pos, s) == Rejected
    decreases |s|
  {
    hide Scan, Mask64, Mask32, Value;
    ok, nums, b, after := false, [], ' ', [];
    if s == [] {
      ScanFailed(p, pos, s);
    } else if !Digit(s[0]) {
      assert s == [s[0]] + s[1..];
      Rejects(p, pos, s[0], s[1..]);
    } else {
      var first, rest := s[0], s[1..];
      assert s == [first] + rest;
      ScanOne(p, pos, first, rest);
      var e, c, tail;
      ok, e, c, tail := ReadElement(Feed(p, pos, first), pos + 1, rest);
      if ok {
        var num := [first] + e;
        assert s == num + ([c] + tail) && Element(num);
        if Blank(c) {
          nums, b, after := [num], c, tail;
        } else {
          ScanNumber(p, pos, num, [c] + tail, 2);
          var q := p.(state := 2, n := Value(num));
          ScanOne(q, pos + |num|, c, tail);
          ok, nums, b, after := ReadNumbers(Feed(q, pos + |num|, c), pos + |num| + 1, tail);
          if ok {
            MoreNumbers(num, nums, b, after, s);
            nums := [num] + nums;
          }
        }
      }
    }
  }

  lemma MoreNumbers(num: string, nums: seq<string>, b: char, after: string, s: string)
    requires nums != [] && s == num + ([','] + (Commas(nums) + [b] + after))
    ensures s == Commas([num] + nums) + [b] + after
  {
    assert ([num] + nums)[1..] == nums;
  }

  lemma ReadField(p: Scanner, pos: nat, s: string) returns (ok: bool, f: Field, b: char, after: string)
    requires Fresh(p) && s != [] && !Blank(s[0])
    ensures ok ==> ShapeOk(f) && Blank(b) && s == FieldText(f) + [b] + after
    ensures !ok ==> Scan(p, pos, s) == Rejected
  {
    hide Scan, Value;
    ok, f, b, after := false, Star, ' ', [];
    var c, rest := s[0], s[1..];
    assert s == [c] + rest;
    if Digit(c) {
      var nums;
      ok, nums, b, after := ReadNumbers(p, pos, s);
      f := Numbers(nums);
    } else if c == '*' {
      ScanOne(p, pos, c, rest);
      ok, f, b, after := ReadStar(p.(state := 1), pos + 1, rest);
    } else {
      Rejects(p, pos, c, rest);
    }
  }

  lemma ReadStar(p: Scanner, pos: nat, s: string) returns (ok: bool, f: Field, b: char, after: string)
    requires p.state == 1
    ensures ok ==> ShapeOk(f) && Blank(b) && ['*'] + s == FieldText(f) + [b] + after
    ensures !ok ==> Scan(p, pos, s) == Rejected
  {
    hide Scan, Value, FieldText;
    ok, f, b, after := false, Star, ' ', [];
    if s == [] {
      ScanFailed(p, pos, s);
    } else {
      var c, rest := s[0], s[1..];
      assert s == [c] + rest;
      if Blank(c) {
        ok, b, after := true, c, rest;
        StarOnly();
      } else if c != '/' {
        Rejects(p, pos, c, rest);
      } else {
        ScanOne(p, pos, c, rest);
        var step;
        ok, step, b, after := ReadStep(p.(state := 3), pos + 1, rest);
        f := Every(step);
        StarStep(step);
      }
    }
  }

  lemma StarOnly()
    ensures FieldText(Star) == ['*']
  {
  }

  lemma StarStep(step: string)
    ensures FieldText(Every(step)) == ['*'] + (['/'] + step)
  {
  }

  lemma ReadStep(p: Scanner, pos: nat, s: string) returns (ok: bool, step: string, b: char, after: string)
    requires p.state == 3
    ensures ok ==> Number(step) && Blank(b) && s == step + [b] + after
    ensures !ok ==> Scan(p, pos, s) == Rejected
  {
    hide Scan;
    ok, step, b, after := false, [], ' ', [];
    if s == [] {
      ScanFailed(p, pos, s);
    } else {
      var d, more := s[0], s[1..];
      assert s == [d] + more;
      if Digit(d) {
        ScanOne(p, pos, d, more);
        var ds;
        ok, ds, b, after := ReadDigits(Feed(p, pos, d), pos + 1, more);
        step := [d] + ds;
      } else {
        Rejects(p, pos, d, more);
      }
    }
  }

  lemma {:induction false} ReadBlanks(s: string) returns (gap: string, rest: string)
    ensures s == gap + rest && Blanks(gap) && (rest == [] || !Blank(rest[0]))
  {
    if s == [] || !Blank(s[0]) {
      gap, rest := [], s;
    } else {
      gap, rest := ReadBlanks(s[1..]);
      gap := [s[0]] + gap;
    }
  }

  /** What is left of a string after its fields have been read. */
  datatype Found =
    | Whole(parts: seq<Part>, cmd: string)
    | Stop(parts: seq<Part>, step: string, b: char, rest: string)
    | Bad

  /** `r` is a reading of `s` with `n` fields to go. */
  predicate Fits(s: string, n: nat, r: Found) {
    match r
    case Whole(parts, cmd) =>
      && |parts| == n && PartsOk(parts) && s == PartsText(parts) + cmd && cmd != [] && !Blank(cmd[0])
    case Stop(parts, step, b, rest) =>
      && |parts| < n && PartsOk(parts) && s == PartsText(parts) + StepText(step, b, rest)
      && Number(step) && Value(step) == 0 && Blank(b)
    case Bad => true
  }

  function Prepend(part: Part, r: Found): Found {
    match r
    case Whole(parts, cmd) => Whole([part] + parts, cmd)
    case Stop(parts, step, b, rest) => Stop([part] + parts, step, b, rest)
    case Bad => Bad
  }

  lemma PrependFits(part: Part, s: string, n: nat, r: Found)
    requires Fits(s, n, r) && FieldOk(part.field) && part.gap != [] && Blanks(part.gap)
    ensures Fits(FieldText(part.field) + part.gap + s, n + 1, Prepend(part, r))
  {
    hide FieldOk, FieldText, Value;
    if !r.Bad? {
      var parts := [part] + r.parts;
      assert parts[1..] == r.parts;
      assert PartsText(parts) == FieldText(part.field) + part.gap + PartsText(r.parts);
    }
  }

  lemma {:induction false} ReadParts(p: Scanner, pos: nat, s: string) returns (r: Found)
    requires Fresh(p) && p.f < 5 && (s == [] || !Blank(s[0]))
    ensures Fits(s, 5 - p.f, r)
    ensures r.Bad? ==> Scan(p, pos, s) == Rejected
    decreases |s|
  {
    hide Scan, FieldMask64, FieldMask32, Value, FieldText;
    if s == [] {
      ScanFailed(p, pos, s);
      return Bad;
    }
    var ok, f, b, after := ReadField(p, pos, s);
    if !ok {
      return Bad;
    }
    if Zero(f) {
      ZeroFits(s, 5 - p.f, f, b, after);
      return Stop([], f.step, b, after);
    }
    var more, tail := ReadBlanks(after);
    var part := Part(f, [b] + more);
    var end := pos + |FieldText(f)|;
    var q := Close(p, FieldMask64(f), FieldMask32(f, end));
    assert s == FieldText(f) + part.gap + tail;
    ScanField(p, pos, f, b, after);
    if tail == [] {
      Unfinished(q, end + 1, more, after);
      return Bad;
    }
    ScanSave(q, end + 1, after);
    ScanBlanks(Save(q), end + 1, more, tail);
    if p.f == 4 {
      r := Whole([], tail);
      NoParts();
    } else {
      r := ReadParts(Save(q), end + 1 + |more|, tail);
    }
    PrependFits(part, tail, 4 - p.f, r);
    r := Prepend(part, r);
  }

  lemma NoParts()
    ensures PartsText([]) == []
  {
  }

  lemma ZeroFits(s: string, n: nat, f: Field, b: char, after: string)
    requires Zero(f) && Blank(b) && s == FieldText(f) + [b] + after && n > 0
    ensures Fits(s, n, Stop([], f.step, b, after))
  {
    hide Value;
    assert PartsText([]) + StepText(f.step, b, after) == s;
  }

  /** After a field nothing but blanks: no command. */
  lemma Unfinished(q: Scanner, pos: nat, more: string, after: string)
    requires q.state == 0 && q.newfield && Blanks(more) && after == more + []
    ensures Scan(q, pos, after) == Rejected
  {
    hide Scan;
    if after == [] {
      ScanFailed(q, pos, after);
    } else {
      ScanSave(q, pos, after);
      ScanBlanks(Save(q), pos, more, []);
      ScanFailed(Save(q), pos + |more|, []);
    }
  }

  /** The parser's verdict on every string: parsed exactly if it is a line, with the masks of the
      line's fields and its command; a division by zero exactly if a step of zero comes first;
      rejected otherwise. */
  lemma ScanExact(s: string)
    ensures Scan(START, 0, s).Parsed? <==> IsLine(s)
    ensures Scan(START, 0, s) == DividedByZero <==> StopsAtZero(s)
    ensures forall l :: LineOk(l) && Text(l) == s ==> Scan(START, 0, s) == Parsed(TimesOf(l), l.cmd)
  {
    hide Scan, LineOk, Text, HaltOk, HaltText, TimesOf;
    forall l | LineOk(l) && Text(l) == s ensures Scan(START, 0, s) == Parsed(TimesOf(l), l.cmd) {
      LineParsed(l);
    }
    forall h | HaltOk(h) && HaltText(h) == s ensures Scan(START, 0, s) == DividedByZero {
      HaltDivides(h);
    }
    Witness(s);
  }

  lemma Witness(s: string)
    ensures IsLine(s) || StopsAtZero(s) || Scan(START, 0, s) == Rejected
  {
    hide Scan, PartsText, PartsOk, Value;
    var lead, t := ReadBlanks(s);
    ScanBlanks(START, 0, lead, t);
    var r := ReadParts(START, |lead|, t);
    match r
    case Whole(parts, cmd) =>
      var l := Line(lead, parts, cmd);
      assert Text(l) == s && LineOk(l);
    case Stop(parts, step, b, rest) =>
      var h := Halt(lead, parts, step, b, rest);
      assert HaltText(h) == s && HaltOk(h);
    case Bad =>
  }

  /** A line that is commented out, or begins with anything but a star or a digit, is rejected. */
  lemma StrayStart(lead: string, c: char, rest: string)
    requires Blanks(lead) && !Blank(c) && !Digit(c) && c != '*'
    ensures Scan(START, 0, lead + ([c] + rest)) == Rejected
  {
    hide Scan;
    ScanBlanks(START, 0, lead, [c] + rest);
    Rejects(START, |lead|, c, rest);
  }

  // Numbers.

  function OnlyDigits(s: string): string {
    if s == [] then [] else (if Digit(s[0]) then [s[0]] else []) + OnlyDigits(s[1..])
  }

  /** Characters other than digits do not matter to a number. */
  lemma {:induction false} OnlyDigitsCount(v: nat, s: string)
    ensures ValueFrom(v, s) == ValueFrom(v, OnlyDigits(s))
    decreases |s|
  {
    if s != [] {
      var rest := OnlyDigits(s[1..]);
      if Digit(s[0]) {
        OnlyDigitsCount(v * 10 + DigitValue(s[0]), s[1..]);
        assert OnlyDigits(s)[1..] == rest;
      } else {
        OnlyDigitsCount(v, s[1..]);
        assert OnlyDigits(s) == rest;
      }
    }
  }

  lemma {:induction false} ValueLast(v: nat, s: string, d: nat)
    requires d < 10
    ensures ValueFrom(v, s + [DigitChar(d)]) == ValueFrom(v, s) * 10 + d
    decreases |s|
  {
    var t := s + [DigitChar(d)];
    if s == [] {
      assert t[1..] == [];
      DigitCharValue(d);
    } else {
      assert t[1..] == s[1..] + [DigitChar(d)];
      ValueLast(if Digit(s[0]) then v * 10 + DigitValue(s[0]) else v, s[1..], d);
    }
  }

  lemma DigitCharValue(d: nat)
    requires d < 10
    ensures Digit(DigitChar(d)) && DigitValue(DigitChar(d)) == d
  {
  }

  /** The decimal spelling of a number has its value, and is a number to the parser. */
  lemma {:induction false} ValueDecimal(n: nat)
    ensures Value(Decimal(n)) == n && Number(Decimal(n)) && Element(Decimal(n))
  {
    hide ValueFrom, DigitChar;
    DigitCharValue(n % 10);
    ValueNone();
    if n < 10 {
      ValueLast(0, [], n);
      assert [] + [DigitChar(n)] == [DigitChar(n)];
    } else {
      ValueDecimal(n / 10);
      ValueLast(0, Decimal(n / 10), n % 10);
    }
  }

  lemma ValueNone()
    ensures ValueFrom(0, []) == 0
  {
  }
}
