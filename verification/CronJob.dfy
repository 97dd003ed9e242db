/** The cron table of cron/cronjob.c: adding lines and asking what is due. */
module CronJob {
  import opened Options
  import opened CronMask
  import opened CronLine

  datatype Entry = Entry(tbl: Times, cmd: string)

  /** The parts of a struct tm that matter; months count from 0. */
  datatype Tm = Tm(min: nat, hour: nat, mday: nat, mon: nat, wday: nat)

  predicate TmOk(tm: Tm) {
    tm.min < 60 && tm.hour < 24 && 1 <= tm.mday <= 31 && tm.mon < 12 && tm.wday < 7
  }

  predicate Due(t: Times, tm: Tm)
    requires TmOk(tm)
  {
    Has64(t.min, tm.min) && Has32(t.hour, tm.hour) && Has32(t.day, tm.mday)
    && Has32(t.mon, tm.mon + 1) && Has32(t.wday, tm.wday)
  }

  /** The commands of the entries that are due, in table order. */
  function DueCommands(table: seq<Entry>, tm: Tm): seq<string>
    requires TmOk(tm)
  {
    if table == [] then []
    else if Due(table[0].tbl, tm) then [table[0].cmd] + DueCommands(table[1..], tm)
    else DueCommands(table[1..], tm)
  }

  // What is due, in terms of the lines.

  /** All five fields of the line admit the time. */
  predicate Fits(l: Line, tm: Tm)
    requires LineOk(l)
  {
    Denotes(l.parts[0].field, tm.min) && Denotes(l.parts[1].field, tm.hour) && Denotes(l.parts[2].field, tm.mday)
    && Denotes(l.parts[3].field, tm.mon + 1) && Denotes(l.parts[4].field, tm.wday)
  }

  /** Every step after the minutes is closed before index 32 of the line. */
  predicate StepsEarly(l: Line)
    requires LineOk(l)
  {
    forall g :: 1 <= g < 5 ==> l.parts[g].field.Every? ==> ClosedAt(l, g) < 32
  }

  /** A line's entry is due exactly at the times the line fits, if no step sits too far right; else never. */
  lemma LineDue(l: Line, tm: Tm)
    requires LineOk(l) && TmOk(tm)
    ensures Due(TimesOf(l), tm) <==> Fits(l, tm) && StepsEarly(l)
  {
    hide Has64, Has32, FieldMask64, FieldMask32, Denotes, FieldOk, ClosedAt;
    FieldBits(l.parts[0].field, 0, tm.min);
    FieldBits(l.parts[1].field, ClosedAt(l, 1), tm.hour);
    FieldBits(l.parts[2].field, ClosedAt(l, 2), tm.mday);
    FieldBits(l.parts[3].field, ClosedAt(l, 3), tm.mon + 1);
    FieldBits(l.parts[4].field, ClosedAt(l, 4), tm.wday);
  }

  /** The newest of the lines first: those that fit the time. */
  function FittingCommands(lines: seq<Line>, tm: Tm): seq<string>
    requires forall i :: 0 <= i < |lines| ==> LineOk(lines[i])
  {
    if lines == [] then []
    else
      var n := |lines| - 1;
      (if Fits(lines[n], tm) && StepsEarly(lines[n]) then [lines[n].cmd] else []) + FittingCommands(lines[..n], tm)
  }

  /** The table after adding the lines one after another. */
  function TableOf(lines: seq<Line>): seq<Entry>
    requires forall i :: 0 <= i < |lines| ==> LineOk(lines[i])
  {
    if lines == [] then []
    else
      var n := |lines| - 1;
      [Entry(TimesOf(lines[n]), lines[n].cmd)] + TableOf(lines[..n])
  }

  lemma NoneDue(tm: Tm)
    requires TmOk(tm)
    ensures DueCommands([], tm) == []
  {
  }

  lemma DueCons(e: Entry, table: seq<Entry>, tm: Tm)
    requires TmOk(tm)
    ensures DueCommands([e] + table, tm) == (if Due(e.tbl, tm) then [e.cmd] else []) + DueCommands(table, tm)
  {
    hide Due;
    assert ([e] + table)[1..] == table;
  }

  lemma {:induction false} DueIsFitting(lines: seq<Line>, tm: Tm)
    requires TmOk(tm) && forall i :: 0 <= i < |lines| ==> LineOk(lines[i])
    ensures DueCommands(TableOf(lines), tm) == FittingCommands(lines, tm)
  {
    hide Due, DueCommands, Fits, StepsEarly, TimesOf, LineOk;
    if lines == [] {
      NoneDue(tm);
    } else {
      var n := |lines| - 1;
      LineDue(lines[n], tm);
      DueIsFitting(lines[..n], tm);
      DueCons(Entry(TimesOf(lines[n]), lines[n].cmd), TableOf(lines[..n]), tm);
    }
  }

  // Two lines, character by character.

  const NEW_YEAR := Line([], [Part(Numbers(["0"]), " "), Part(Numbers(["0"]), "\t"), Part(Numbers(["1"]), " "),
                              Part(Numbers(["1"]), " "), Part(Star, " ")], "job")

  const MONDAYS := Line([], [Part(Star, " "), Part(Star, " "), Part(Star, " "), Part(Star, " "),
                             Part(Numbers(["1"]), " ")], "job")

  lemma OneDigit(k: nat)
    ensures Element("0") && Element("1") && (Listed(["0"], k) <==> k == 0) && (Listed(["1"], k) <==> k == 1)
  {
    assert Value("0") == 0 by { assert "0"[1..] == []; }
    assert Value("1") == 1 by { assert "1"[1..] == []; }
    hide ValueFrom;
    assert ElementIs(["0"][0], 0) && ElementIs(["1"][0], 1);
  }

  lemma OneNumber(n: string)
    ensures FieldText(Numbers([n])) == n
  {
    assert n + [] == n;
  }

  lemma OneMorePart(p: Part, parts: seq<Part>)
    ensures PartsText([p] + parts) == FieldText(p.field) + p.gap + PartsText(parts)
    ensures PartsText([]) == ""
  {
    hide FieldText;
    assert ([p] + parts)[1..] == parts;
  }

  lemma FivePieces(a: Part, b: Part, c: Part, d: Part, e: Part)
    ensures PartsText([a, b, c, d, e]) ==
            FieldText(a.field) + a.gap + (FieldText(b.field) + b.gap + (FieldText(c.field) + c.gap
            + (FieldText(d.field) + d.gap + (FieldText(e.field) + e.gap + ""))))
  {
    OneMorePart(e, []);
    OneMorePart(d, [e]);
    OneMorePart(c, [d, e]);
    OneMorePart(b, [c, d, e]);
    OneMorePart(a, [b, c, d, e]);
    hide FieldText, PartsText;
    assert [e] + [] == [e] && [d] + [e] == [d, e] && [c] + [d, e] == [c, d, e];
    assert [b] + [c, d, e] == [b, c, d, e] && [a] + [b, c, d, e] == [a, b, c, d, e];
  }

  lemma NewYearText()
    ensures Text(NEW_YEAR) == "0 0\t1 1 * job"
  {
    var p := NEW_YEAR.parts;
    OneNumber("0");
    OneNumber("1");
    FivePieces(p[0], p[1], p[2], p[3], p[4]);
    hide PartsText, Commas;
    assert p == [p[0], p[1], p[2], p[3], p[4]];
    assert "0" + " " + ("0" + "\t" + ("1" + " " + ("1" + " " + ("*" + " " + "")))) == "0 0\t1 1 * ";
  }

  lemma MondaysText()
    ensures Text(MONDAYS) == "* * * * 1 job"
  {
    var p := MONDAYS.parts;
    OneNumber("1");
    FivePieces(p[0], p[1], p[2], p[3], p[4]);
    hide PartsText, Commas;
    assert p == [p[0], p[1], p[2], p[3], p[4]];
    assert "*" + " " + ("*" + " " + ("*" + " " + ("*" + " " + ("1" + " " + "")))) == "* * * * 1 ";
  }

  lemma BothOk()
    ensures LineOk(NEW_YEAR) && LineOk(MONDAYS)
  {
    OneDigit(0);
    hide Element, Value;
  }

  lemma BothFit(tm: Tm)
    requires LineOk(NEW_YEAR) && LineOk(MONDAYS)
    ensures StepsEarly(NEW_YEAR) && StepsEarly(MONDAYS)
    ensures Fits(NEW_YEAR, tm) <==> tm.min == 0 && tm.hour == 0 && tm.mday == 1 && tm.mon == 0
    ensures Fits(MONDAYS, tm) <==> tm.wday == 1
  {
    OneDigit(tm.min);
    OneDigit(tm.hour);
    OneDigit(tm.mday);
    OneDigit(tm.mon + 1);
    OneDigit(tm.wday);
    hide LineOk, Listed, ClosedAt, Element;
  }

  /** Midnight on the first of January; a tab separates fields as well as a blank does. */
  lemma NewYear(tm: Tm)
    requires TmOk(tm)
    ensures LineOk(NEW_YEAR) && Scan(START, 0, "0 0\t1 1 * job") == Parsed(TimesOf(NEW_YEAR), "job")
    ensures Due(TimesOf(NEW_YEAR), tm) <==> tm.min == 0 && tm.hour == 0 && tm.mday == 1 && tm.mon == 0
  {
    NewYearText();
    BothOk();
    BothFit(tm);
    hide LineOk, Text, Due, TimesOf, Scan, Fits, StepsEarly;
    LineParsed(NEW_YEAR);
    LineDue(NEW_YEAR, tm);
  }

  /** Every minute of every Monday. */
  lemma Mondays(tm: Tm)
    requires TmOk(tm)
    ensures LineOk(MONDAYS) && Scan(START, 0, "* * * * 1 job") == Parsed(TimesOf(MONDAYS), "job")
    ensures Due(TimesOf(MONDAYS), tm) <==> tm.wday == 1
  {
    MondaysText();
    BothOk();
    BothFit(tm);
    hide LineOk, Text, Due, TimesOf, Scan, Fits, StepsEarly;
    LineParsed(MONDAYS);
    LineDue(MONDAYS, tm);
  }

  // A line that never runs.

  const FIVES := ["00", "05", "10", "15", "20", "25", "30", "35", "40", "45", "50", "55"]

  /** The given minutes of every second hour. */
  function EvenHours(minutes: seq<string>): Line {
    Line([], [Part(Numbers(minutes), " "), Part(Every("2"), " "), Part(Star, " "), Part(Star, " "), Part(Star, " ")],
         "job")
  }

  lemma {:induction false} CommasLength(nums: seq<string>)
    requires nums != [] && forall i :: 0 <= i < |nums| ==> |nums[i]| == 2
    ensures |Commas(nums)| == 3 * |nums| - 1
  {
    if |nums| > 1 {
      CommasLength(nums[1..]);
    }
  }

  lemma FivesOk()
    ensures AllElements(FIVES)
  {
    hide Value;
  }

  lemma TwoOk()
    ensures FieldOk(Every("2"))
  {
    assert "2"[1..] == [];
  }

  lemma EvenHoursOk(minutes: seq<string>)
    requires AllElements(minutes) && |minutes| >= 10 && forall i :: 0 <= i < |minutes| ==> |minutes[i]| == 2
    ensures LineOk(EvenHours(minutes)) && ClosedAt(EvenHours(minutes), 1) >= 32
  {
    hide Commas, Value;
    TwoOk();
    CommasLength(minutes);
    var parts := EvenHours(minutes).parts;
    assert parts[..1] == [parts[0]] && [parts[0]][1..] == [];
  }

  lemma EvenHoursNever(minutes: seq<string>, tm: Tm)
    requires TmOk(tm) && AllElements(minutes) && |minutes| >= 10
    requires forall i :: 0 <= i < |minutes| ==> |minutes[i]| == 2
    requires minutes[0] == "00"
    ensures LineOk(EvenHours(minutes)) && !Due(TimesOf(EvenHours(minutes)), tm)
    ensures Fits(EvenHours(minutes), tm.(min := 0, hour := 0))
  {
    EvenHoursOk(minutes);
    assert Value("00") == 0 by { assert "00"[1..][1..] == []; }
    hide Due, TimesOf, LineOk, ClosedAt, Commas, Value;
    LineDue(EvenHours(minutes), tm);
    assert ElementIs(minutes[0], 0);
    assert EvenHours(minutes).parts[1].field.Every?;
  }

  /** Every five minutes of every second hour, spelt out: fits every midnight, but is due at no time at all. */
  lemma NeverRuns(tm: Tm)
    requires TmOk(tm)
    ensures LineOk(EvenHours(FIVES)) && !Due(TimesOf(EvenHours(FIVES)), tm)
    ensures Fits(EvenHours(FIVES), tm.(min := 0, hour := 0))
  {
    FivesOk();
    hide LineOk, Fits, Due, TimesOf, EvenHours, AllElements;
    EvenHoursNever(FIVES, tm);
  }

  // The code.

  class Cron {
    var tbl: seq<Entry>
    var cktbl: Times
    var findptr: seq<Entry>

    constructor ()
      ensures tbl == []
    {
      tbl := [];
    }

    /** The loop of a step, on masks that are still clear: which bits n divides. */
    static method StepMasks(n: nat, i: nat, clear64: bv64, clear32: bv32) returns (i64: bv64, i32: bv32)
      requires n > 0 && clear64 == 0 && clear32 == 0
      ensures i64 == StepMask64(n, 63) && i32 == if i < 32 then StepMask32(n, 63) else 0
    {
      hide Or64, Or32, Bit64, Bit32;
      var m64: bv64, m32: bv32 := 1, 1;
      i64, i32 := clear64, clear32;
      BitNext(0);
      for j := 0 to 63
        invariant m64 == Bit64(j) && m32 == Bit32(j)
        invariant i64 == StepMask64(n, j) && i32 == if i < 32 then StepMask32(n, j) else 0
      {
        if j % n == 0 {
          if i < 32 { i32 := Or32(i32, m32); }
          i64 := Or64(i64, m64);
        }
        BitNext(j);
        m64, m32 := m64 << 1, m32 << 1;
      }
    }

    static method NumberMasks(n: nat) returns (m64: bv64, m32: bv32)
      ensures m64 == Mask64(n) && m32 == Mask32(n)
    {
      hide Bit64, Bit32;
      BitNext(0);
      if n == 0 {
        m32, m64 := 1, 1;
      } else if n < 32 {
        m32, m64 := Bit32(n), Bit64(n);
      } else if n < 63 {
        m32, m64 := 0, Bit64(n);
      } else {
        m32, m64 := 0, 0;
      }
    }

    /** The locals of the parser stand for the scanner p, as far as they will be read again. */
    ghost static predicate Stands(p: Scanner, state: int, newfield: bool, f: nat, n: nat, i64: bv64, i32: bv32,
                                  tbl: Times)
    {
      && p.state == state && p.newfield == newfield && p.tbl == tbl && p.f == f
      && (newfield ==> state == 0)
      && (state == 2 || state == 5 ==> p.n == n)
      && (state != 6 ==> p.i64 == i64 && p.i32 == i32)
      && ((state == 0 && !newfield) || state == 1 || state == 3 || state == 5 ==> i64 == 0 && i32 == 0)
    }

    /** parse_cron_string, with a division by zero as a verdict of its own. */
    static method Parse(str: string) returns (v: Verdict)
      ensures v == Scan(START, 0, str)
    {
      hide Or64, Or32, Mask64, Mask32, StepMask64, StepMask32, Scan, Put;
      var state, newfield, f, n := 0, false, 0, 0;
      var i64: bv64, i32: bv32 := 0, 0;
      var tbl := BLANK_TIMES;
      var i := 0;
      ghost var p := START;
      assert str[0..] == str;
      while i < |str|
        invariant 0 <= i <= |str|
        invariant Stands(p, state, newfield, f, n, i64, i32, tbl)
        invariant Scan(START, 0, str) == Scan(p, i, str[i..])
        decreases |str| - i, newfield
      {
        var c := str[i];
        assert str[i..] == [c] + str[i + 1..];
        if state == 0 && newfield {
          newfield, f := false, f + 1;
          tbl := Put(tbl, f, i64, i32);
          ScanSave(p, i, str[i..]);
          p := Save(p);
          if f == 5 {
            state := 6;
            continue;
          }
          i64, i32 := 0, 0;
        }
        if state == 6 {
          ScanCommand(p, i, c, str[i + 1..]);
          if !Blank(c) { return Parsed(tbl, str[i..]); }
        } else if state < 0 || state > 6 {
          ScanFailed(p, i, str[i..]);
          return Rejected;
        } else if state == 5 && Blank(c) && n == 0 {
          ScanDivides(p, i, c, str[i + 1..]);
          return DividedByZero;
        } else {
          state, newfield, n, i64, i32 := Character(c, i, state, n, i64, i32, p, f, tbl);
          ScanOne(p, i, c, str[i + 1..]);
          p := Feed(p, i, c);
        }
        i := i + 1;
      }
      ScanFailed(p, i, str[i..]);
      return Rejected;
    }

    /** The switch on the state, for one character of a field. */
    static method Character(c: char, i: nat, state: int, n: nat, i64: bv64, i32: bv32,
                            ghost p: Scanner, f: nat, tbl: Times)
      returns (state': int, newfield': bool, n': nat, i64': bv64, i32': bv32)
      requires 0 <= state < 6 && Stands(p, state, false, f, n, i64, i32, tbl) && !(state == 5 && Blank(c) && n == 0)
      ensures Stands(Feed(p, i, c), state', newfield', f, n', i64', i32', tbl)
    {
      hide Or64, Or32, Mask64, Mask32, StepMask64, StepMask32;
      state', newfield', n', i64', i32' := state, false, n, i64, i32;
      match state
      case 0 =>
        i64', i32' := 0, 0;
        if Blank(c) {
        } else if c == '*' {
          state' := 1;
        } else if Digit(c) {
          n', state' := DigitValue(c), 2;
        } else {
          state' := -1;
        }
      case 1 =>
        if Blank(c) {
          i32', i64' := STAR32, STAR64;
          newfield', state' := true, 0;
        } else if c == '/' {
          n', state' := 0, 3;
        } else {
          state' := -1;
        }
      case 2 =>
        var m64, m32 := NumberMasks(n);
        if Blank(c) {
          i64', i32' := Or64(i64, m64), Or32(i32, m32);
          newfield', state' := true, 0;
        } else if Digit(c) {
          n' := n * 10 + DigitValue(c);
        } else if c == ',' {
          i64', i32' := Or64(i64, m64), Or32(i32, m32);
          state' := 4;
        }
      case 3 =>
        if Digit(c) {
          n', state' := DigitValue(c), 5;
        } else {
          state' := -1;
        }
      case 4 =>
        if Digit(c) {
          n', state' := DigitValue(c), 2;
        } else {
          state' := -1;
        }
      case 5 =>
        if Blank(c) {
          i64', i32' := StepMasks(n, i, i64, i32);
          state', newfield' := 0, true;
        } else if Digit(c) {
          n' := n * 10 + DigitValue(c);
        } else {
          state' := -1;
        }
    }

    /** cronjob_add: 1 and a new first entry, or 0; nothing is returned after a division by zero. */
    method Add(str: string) returns (rc: Option<int>)
      modifies `tbl
      ensures match Scan(START, 0, str) {
                case Parsed(t, cmd) => rc == Some(1) && tbl == [Entry(t, cmd)] + old(tbl)
                case Rejected => rc == Some(0) && tbl == old(tbl)
                case DividedByZero => rc == None && tbl == old(tbl)
              }
    {
      hide Scan;
      var v := Parse(str);
      match v {
        case Parsed(t, cmd) =>
          tbl := [Entry(t, cmd)] + tbl;
          rc := Some(1);
        case Rejected => rc := Some(0);
        case DividedByZero => rc := None;
      }
    }

    /** The words that cronjob_check_first makes of a time. */
    ghost predicate Asking(tm: Tm)
      reads `cktbl
    {
      TmOk(tm) && cktbl == Times(Bit64(tm.min), Bit32(tm.hour), Bit32(tm.mday), Bit32(tm.mon + 1), Bit32(tm.wday))
    }

    method CheckNext(ghost tm: Tm) returns (cmd: Option<string>)
      requires Asking(tm)
      modifies `findptr
      ensures DueCommands(old(findptr), tm) ==
              match cmd { case None => [] case Some(s) => [s] + DueCommands(findptr, tm) }
      ensures cmd.None? ==> findptr == []
      ensures cmd.Some? ==> |findptr| < old(|findptr|)
    {
      hide And64, And32, Bit64, Bit32;
      while findptr != []
        invariant DueCommands(old(findptr), tm) == DueCommands(findptr, tm)
        invariant |findptr| <= old(|findptr|)
        decreases |findptr|
      {
        var e := findptr[0];
        findptr := findptr[1..];
        AndSwaps(cktbl, e.tbl);
        if And32(cktbl.wday, e.tbl.wday) == 0 { continue; }
        if And32(cktbl.mon, e.tbl.mon) == 0 { continue; }
        if And32(cktbl.day, e.tbl.day) == 0 { continue; }
        if And32(cktbl.hour, e.tbl.hour) == 0 { continue; }
        if And64(cktbl.min, e.tbl.min) == 0 { continue; }
        return Some(e.cmd);
      }
      return None;
    }

    method CheckFirst(tm: Tm) returns (cmd: Option<string>)
      requires TmOk(tm)
      modifies `cktbl, `findptr
      ensures Asking(tm)
      ensures DueCommands(tbl, tm) == match cmd { case None => [] case Some(s) => [s] + DueCommands(findptr, tm) }
      ensures cmd.None? ==> findptr == []
      ensures cmd.Some? ==> |findptr| < |tbl|
    {
      hide Bit64, Bit32, DueCommands;
      cktbl := Times(Bit64(tm.min), Bit32(tm.hour), Bit32(tm.mday), Bit32(tm.mon + 1), Bit32(tm.wday));
      findptr := tbl;
      cmd := CheckNext(tm);
    }

    /** check_first and then check_next until NULL. */
    method Enumerate(tm: Tm) returns (cmds: seq<string>)
      requires TmOk(tm)
      modifies `cktbl, `findptr
      ensures cmds == DueCommands(tbl, tm)
    {
      hide DueCommands, Asking;
      cmds := [];
      var cmd := CheckFirst(tm);
      while cmd.Some?
        invariant Asking(tm)
        invariant DueCommands(tbl, tm) ==
                  cmds + match cmd { case None => [] case Some(s) => [s] + DueCommands(findptr, tm) }
        decreases cmd.Some?, |findptr|
      {
        cmds := cmds + [cmd.value];
        cmd := CheckNext(tm);
      }
    }
  }

  lemma AndSwaps(a: Times, b: Times)
    ensures And64(a.min, b.min) == And64(b.min, a.min) && And32(a.hour, b.hour) == And32(b.hour, a.hour)
    ensures And32(a.day, b.day) == And32(b.day, a.day) && And32(a.mon, b.mon) == And32(b.mon, a.mon)
    ensures And32(a.wday, b.wday) == And32(b.wday, a.wday)
  {
  }

  lemma NoTable(lines: seq<Line>)
    ensures TableOf(lines[..0]) == []
  {
  }

  lemma TableSnoc(lines: seq<Line>, i: nat)
    requires i < |lines| && forall j :: 0 <= j < |lines| ==> LineOk(lines[j])
    ensures TableOf(lines[..i + 1]) == [Entry(TimesOf(lines[i]), lines[i].cmd)] + TableOf(lines[..i])
  {
    hide LineOk, TimesOf;
    assert lines[..i + 1][..i] == lines[..i];
  }

  /** Lines added to an empty table: the commands due at a time are those of the lines that fit it, newest first. */
  method Schedule(lines: seq<Line>, tm: Tm) returns (cmds: seq<string>)
    requires TmOk(tm) && forall i :: 0 <= i < |lines| ==> LineOk(lines[i])
    ensures cmds == FittingCommands(lines, tm)
  {
    hide LineOk, TmOk, FittingCommands, DueCommands, TimesOf, Scan, Text, PartsText, TableOf;
    var cron := new Cron();
    NoTable(lines);
    for i := 0 to |lines|
      invariant cron.tbl == TableOf(lines[..i])
    {
      LineParsed(lines[i]);
      var rc := cron.Add(Text(lines[i]));
      TableSnoc(lines, i);
    }
    assert lines[..|lines|] == lines;
    cmds := cron.Enumerate(tm);
    DueIsFitting(lines, tm);
  }
}
