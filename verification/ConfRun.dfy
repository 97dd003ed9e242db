/** The store of sys_conf/sys_conf.c and the global flags of the grammar's actions, updated in
    place. */
module ConfRun {
  import opened Options
  import opened ConfLang
  import opened ConfMachine
  import opened ConfProof
  import opened ConfRead

  datatype Entry = Entry(key: string, v: Value)

  /** The list of entries, newest first, as a map from lower-case keys. */
  function MapOf(es: seq<Entry>): Store {
    if es == [] then map[] else MapOf(es[1..])[Lower(es[0].key) := es[0].v]
  }

  /** No two entries have keys that strcasecmp treats alike. */
  predicate Unique(es: seq<Entry>) {
    forall i, j :: 0 <= i < j < |es| ==> Lower(es[i].key) != Lower(es[j].key)
  }

  lemma {:induction false} MapKeys(es: seq<Entry>, k: string)
    ensures k in MapOf(es) <==> exists i :: 0 <= i < |es| && Lower(es[i].key) == k
  {
    if es != [] {
      MapKeys(es[1..], k);
      assert forall i :: 0 <= i < |es[1..]| ==> es[1..][i] == es[i + 1];
      assert Lower(es[0].key) == k ==> exists i :: 0 <= i < |es| && Lower(es[i].key) == k;
      if k in MapOf(es[1..]) {
        var i :| 0 <= i < |es[1..]| && Lower(es[1..][i].key) == k;
        assert Lower(es[i + 1].key) == k;
      }
    }
  }

  lemma {:induction false} MapUpdate(es: seq<Entry>, i: nat, v: Value)
    requires Unique(es) && i < |es|
    ensures Lower(es[i].key) in MapOf(es) && MapOf(es)[Lower(es[i].key)] == es[i].v
    ensures MapOf(es[i := es[i].(v := v)]) == MapOf(es)[Lower(es[i].key) := v]
  {
    hide Lower;
    var es' := es[i := es[i].(v := v)];
    if i == 0 {
      assert es'[1..] == es[1..];
    } else {
      assert es'[1..] == es[1..][i - 1 := es[1..][i - 1].(v := v)];
      MapUpdate(es[1..], i - 1, v);
      assert Lower(es[0].key) != Lower(es[i].key);
    }
  }

  lemma EmptyMap(es: seq<Entry>)
    ensures MapOf(es) == map[] <==> es == []
  {
    if es != [] {
      assert Lower(es[0].key) in MapOf(es);
    }
  }

  class Conf {
    var entries: seq<Entry>

    ghost predicate Valid()
      reads this
    {
      Unique(entries)
    }

    function View(): Store
      reads this
    {
      MapOf(entries)
    }

    constructor ()
      ensures Valid() && View() == map[]
    {
      entries := [];
    }

    /** sysconf_ptr: the position of the entry, or -1. */
    method Find(key: string) returns (i: int)
      requires Valid()
      ensures i == -1 || 0 <= i < |entries|
      ensures i == -1 <==> Lower(key) !in View()
      ensures i >= 0 ==> Lower(entries[i].key) == Lower(key) && View()[Lower(key)] == entries[i].v
    {
      hide Lower;
      i := 0;
      MapKeys(entries, Lower(key));
      while i < |entries|
        invariant 0 <= i <= |entries|
        invariant forall j :: 0 <= j < i ==> Lower(entries[j].key) != Lower(key)
      {
        if Lower(key) == Lower(entries[i].key) {
          MapUpdate(entries, i, entries[i].v);
          return;
        }
        i := i + 1;
      }
      i := -1;
    }

    /** sysconf_int */
    method GetInteger(key: string) returns (r: int)
      requires Valid()
      ensures r == GetInt(View(), key)
    {
      var i := Find(key);
      r := if i >= 0 then entries[i].v.ivalue else -1;
    }

    /** sysconf_str */
    method GetString(key: string) returns (r: Option<string>)
      requires Valid()
      ensures r == GetStr(View(), key)
    {
      hide Lower, MapOf;
      var i := Find(key);
      r := if i >= 0 then entries[i].v.text else None;
    }

    /** sysconf_get_int_list: no list and length 0 when there is no entry */
    method GetIntList(key: string) returns (list: Option<seq<int>>, len: int)
      requires Valid()
      ensures list == GetInts(View(), key) && len == if Lower(key) in View() then GetInt(View(), key) else 0
    {
      hide Lower, MapOf;
      var i := Find(key);
      list, len := None, 0;
      if i >= 0 {
        list, len := entries[i].v.list, entries[i].v.ivalue;
      }
    }

    /** sysconf_get_str_list */
    method GetStrList(key: string) returns (list: Option<seq<Option<string>>>, len: int)
      requires Valid()
      ensures list == GetStrs(View(), key) && len == if Lower(key) in View() then GetInt(View(), key) else 0
    {
      hide Lower, MapOf;
      var i := Find(key);
      list, len := None, 0;
      if i >= 0 {
        list, len := entries[i].v.slist, entries[i].v.ivalue;
      }
    }

    /** sysconf_int and free on the value of a token.  The loop of sysconf_ptr passes a null
        pointer to strcasecmp as soon as there is an entry. */
    method LookupToken(t: Token) returns (r: Option<int>)
      requires Valid()
      ensures r == Lookup(View(), t)
    {
      hide Lower;
      match t {
        case Freed => r := None;
        case Null =>
          EmptyMap(entries);
          r := if entries == [] then Some(-1) else None;
        case Live(name) =>
          var v := GetInteger(name);
          r := Some(v);
      }
    }

    /** addentry_string: overwrite the entry with this key, or put a new one in front. */
    method AddString(key: string, text: Option<string>) returns (i: nat)
      requires Valid()
      modifies this
      ensures Valid() && i < |entries| && Lower(entries[i].key) == Lower(key)
      ensures View() == Set(old(View()), key, Value(-1, StoredText(text), None, None))
    {
      hide Lower, StoredText;
      var at := Find(key);
      if at == -1 {
        MapKeys(entries, Lower(key));
        entries := [Entry(key, Value(-1, StoredText(text), None, None))] + entries;
        i := 0;
        assert entries[1..] == old(entries);
      } else {
        i := at;
        MapUpdate(entries, i, Value(-1, StoredText(text), None, None));
        entries := entries[i := entries[i].(v := Value(-1, StoredText(text), None, None))];
      }
    }

    /** addentry_int, addentry_flag_on, addentry_flag_off, addentry_intlist, addentry_strlist:
        an entry without text, then its other fields. */
    method AddValue(key: string, v: Value)
      requires Valid() && v.text == None
      modifies this
      ensures Valid() && View() == Set(old(View()), key, v)
    {
      hide Lower, MapOf;
      var i := AddString(key, None);
      MapUpdate(entries, i, v);
      entries := entries[i := entries[i].(v := v)];
    }
  }

  predicate IsControl(a: Action) {
    !(a.Simply? || a.PushInt? || a.PushStr? || a.KindInt? || a.KindStr? || a.AssignList?)
  }

  /** Lists are assigned by their own actions. */
  predicate Plainly(a: Action) { a.Simply? ==> !a.s.SetInts? && !a.s.SetStrs? }

  predicate AllPlainly(acts: seq<Action>) {
    forall i :: 0 <= i < |acts| ==> Plainly(acts[i])
  }

  lemma {:induction false} PushesPlainly(xs: seq<string>, ss: seq<Option<string>>)
    ensures AllPlainly(PushInts(xs)) && AllPlainly(PushStrs(ss))
    decreases |xs| + |ss|
  {
    if xs != [] {
      PushesPlainly(xs[1..], ss);
    } else if ss != [] {
      PushesPlainly(xs, ss[1..]);
    }
  }

  lemma {:induction false} BodyPlainly(body: seq<Simple>)
    ensures AllPlainly(OfBody(body))
  {
    if body != [] {
      hide PushInts, PushStrs;
      var s := body[0];
      if s.SetInts? { PushesPlainly(s.xs, []); }
      if s.SetStrs? { PushesPlainly([], s.ss); }
      BodyPlainly(body[1..]);
    }
  }

  lemma {:induction false} LabelsPlainly(labels: seq<nat>)
    ensures AllPlainly(OfLabels(labels))
  {
    if labels != [] {
      LabelsPlainly(labels[1..]);
    }
  }

  lemma {:induction false} GroupsPlainly(groups: seq<Group>)
    ensures AllPlainly(OfGroups(groups))
  {
    if groups != [] {
      hide OfBody, OfLabels;
      BodyPlainly(groups[0].body);
      LabelsPlainly(groups[0].labels);
      GroupsPlainly(groups[1..]);
    }
  }

  lemma StatementPlainly(s: Statement)
    ensures AllPlainly(OfStatement(s))
  {
    hide OfBody, OfLabels, OfGroups, OfSimple, Stale;
    match s
    case Plain(p) =>
      BodyPlainly([p]);
      OneBody(p);
    case If(_, thn) => BodyPlainly(thn);
    case IfElse(_, thn, els) =>
      BodyPlainly(thn);
      BodyPlainly(els);
    case IfElifElse(_, thn, _, elif, els) =>
      BodyPlainly(thn);
      BodyPlainly(elif);
      BodyPlainly(els);
    case Switch(_, groups, dflt) =>
      GroupsPlainly(groups);
      if dflt.Some? {
        LabelsPlainly(dflt.value.labels);
        BodyPlainly(dflt.value.body);
      }
  }

  lemma OneBody(p: Simple)
    ensures OfBody([p]) == OfSimple(p)
  {
    hide OfSimple;
    assert [p][1..] == [];
  }

  lemma {:induction false} ProgramPlainly(prog: seq<Statement>)
    ensures AllPlainly(OfProgram(prog))
  {
    if prog != [] {
      hide OfStatement;
      StatementPlainly(prog[0]);
      ProgramPlainly(prog[1..]);
    }
  }

  lemma PopLast(stack: seq<Elem>)
    requires stack != []
    ensures var e, rest := stack[|stack| - 1], stack[..|stack| - 1];
            && PopInts(stack) == [if e.Int? then e.n else 0] + PopInts(rest)
            && PopStrs(stack) == [if e.Str? then e.t else None] + PopStrs(rest)
  {
  }

  /** What one character adds to a printed text. */
  function Emitted(escaped: bool, c: char): string {
    if !escaped then (if c == '\\' then "" else [c])
    else if c == 'n' then "\n" else if c == 'r' then "\r" else if c == '\\' then "\\" else ""
  }

  lemma UnescapeNext(done: string, s: string, escaped: bool)
    requires s != ""
    ensures done + Unescape(s, escaped)
         == done + Emitted(escaped, s[0]) + Unescape(s[1..], !escaped && s[0] == '\\')
  {
  }

  lemma UnescapeNone(done: string, escaped: bool)
    ensures done + Unescape("", escaped) == done && "" + done == done
  {
  }

  /** `ptr[j++] = c`, at or before the character that has just been read. */
  method PutBack(ptr: array<char>, i: nat, j: nat, c: char)
    requires j <= i < ptr.Length
    modifies ptr
    ensures ptr[..j + 1] == old(ptr[..j]) + [c] && ptr[i + 1..] == old(ptr[i + 1..])
  {
    ptr[j] := c;
  }

  /** The loop of the print action, which shortens the text where it stands. */
  method UnescapeInPlace(ptr: array<char>) returns (j: nat)
    modifies ptr
    ensures j <= ptr.Length && ptr[..j] == Unescape(old(ptr[..]), false)
  {
    hide Unescape;
    ghost var text := ptr[..];
    j := 0;
    var k := false;
    assert text[0..] == text && ptr[..0] == "";
    UnescapeNone(Unescape(text, false), false);
    for i := 0 to ptr.Length
      invariant j <= i && ptr[i..] == text[i..]
      invariant ptr[..j] + Unescape(text[i..], k) == Unescape(text, false)
    {
      var c := ptr[i];
      assert text[i..][0] == c && text[i..][1..] == text[i + 1..] && ptr[i + 1..] == text[i + 1..];
      UnescapeNext(ptr[..j], text[i..], k);
      ghost var done := ptr[..j];
      if k {
        k := false;
        match c {
          case 'n' =>
            PutBack(ptr, i, j, '\n');
            j := j + 1;
          case 'r' =>
            PutBack(ptr, i, j, '\r');
            j := j + 1;
          case '\\' =>
            PutBack(ptr, i, j, '\\');
            j := j + 1;
          case _ =>
            UnescapeNone(done, k);
        }
      } else if c == '\\' {
        k := true;
        UnescapeNone(done, k);
      } else {
        PutBack(ptr, i, j, c);
        j := j + 1;
      }
    }
    assert text[ptr.Length..] == "";
    UnescapeNone(ptr[..j], k);
  }

  class Interpreter {
    const conf: Conf
    const gstk: array<Elem>
    var sp: nat
    var iftrue: bool
    var ifevertrue: bool
    var swValue: int
    var swTf: bool
    var intstk: bool
    var out: seq<string>
    var ended: bool
    var faulted: bool

    ghost predicate Valid()
      reads this, conf, gstk
    {
      conf.Valid() && gstk.Length == LIST_MAX && sp <= LIST_MAX
    }

    ghost function View(): Machine
      reads this, conf, gstk
      requires Valid()
    {
      Machine(World(conf.View(), out, ended, faulted), iftrue, ifevertrue, swValue, swTf, gstk[..sp], intstk)
    }

    constructor ()
      ensures Valid() && fresh(conf) && fresh(gstk)
      ensures View() == Machine(World(map[], [], false, false), true, false, 0, false, [], true)
    {
      conf := new Conf();
      gstk := new Elem[LIST_MAX](_ => Int(0));
      sp, iftrue, ifevertrue, swValue, swTf, intstk := 0, true, false, 0, false, true;
      out, ended, faulted := [], false, false;
    }

    /** push_int and push_str */
    method PushElem(e: Elem)
      requires Valid()
      modifies `sp, gstk
      ensures Valid() && gstk[..sp] == Push(old(gstk[..sp]), e)
    {
      if sp < LIST_MAX {
        gstk[sp] := e;
        sp := sp + 1;
      }
    }

    /** The loop that pops the whole stack into a fresh list of numbers. */
    method PopAllInts() returns (list: seq<int>)
      requires Valid()
      modifies `sp
      ensures Valid() && sp == 0 && list == old(PopInts(gstk[..sp]))
    {
      hide PopInts;
      list := [];
      var len := sp;
      for i := 0 to len
        invariant Valid() && sp == len - i
        invariant list + PopInts(gstk[..sp]) == old(PopInts(gstk[..sp]))
      {
        PopLast(gstk[..sp]);
        sp := sp - 1;
        assert gstk[..sp + 1][..sp] == gstk[..sp];
        list := list + [if gstk[sp].Int? then gstk[sp].n else 0];
      }
    }

    /** The loop that pops the whole stack into a fresh list of strings. */
    method PopAllStrs() returns (list: seq<Option<string>>)
      requires Valid()
      modifies `sp
      ensures Valid() && sp == 0 && list == old(PopStrs(gstk[..sp]))
    {
      hide PopStrs;
      list := [];
      var len := sp;
      for i := 0 to len
        invariant Valid() && sp == len - i
        invariant list + PopStrs(gstk[..sp]) == old(PopStrs(gstk[..sp]))
      {
        PopLast(gstk[..sp]);
        sp := sp - 1;
        assert gstk[..sp + 1][..sp] == gstk[..sp];
        list := list + [if gstk[sp].Str? then gstk[sp].t else None];
      }
    }

    /** An assignment, a print or an exit whose branch is taken. */
    method DoSimple(s: Simple)
      requires Valid() && !ended && !s.SetInts? && !s.SetStrs?
      modifies `out, `ended, `faulted, conf
      ensures Valid() && View() == old(View()).(w := EvalSimple(old(View()).w, s, true))
    {
      hide MapOf, Lower, StoredText, Unescape, Atoi;
      match s {
        case SetInt(id, d) => conf.AddValue(id, IntValue(Atoi(d)));
        case SetStr(id, t) => var i := conf.AddString(id, t);
        case SetOn(id) => conf.AddValue(id, IntValue(1));
        case SetOff(id) => conf.AddValue(id, IntValue(0));
        case Print(t) => DoPrint(t);
        case Exit => ended := true;
      }
    }

    /** The print action. */
    method DoPrint(t: Option<string>)
      requires Valid() && !ended
      modifies `out, `ended, `faulted
      ensures Valid() && View() == old(View()).(w := EvalSimple(old(View()).w, Print(t), true))
    {
      hide MapOf, Unescape;
      if t.None? {
        ended, faulted := true, true;
      } else {
        var ptr := new char[|t.value|](i requires 0 <= i < |t.value| => t.value[i]);
        assert ptr[..] == t.value;
        var len := UnescapeInPlace(ptr);
        out := out + [ptr[..len]];
      }
    }

    /** The action of a list assignment. */
    method DoAssignList(id: string)
      requires Valid() && !ended
      modifies this`sp, conf
      ensures Valid() && View() == Step(old(View()), AssignList(id))
    {
      hide MapOf, Lower, PopInts, PopStrs;
      var len := sp;
      if iftrue && intstk {
        var list := PopAllInts();
        conf.AddValue(id, Value(len, None, Some(list), None));
      } else if iftrue && !intstk {
        var list := PopAllStrs();
        conf.AddValue(id, Value(len, None, None, Some(list)));
      }
      sp := 0;
    }

    /** One semantic action; nothing happens once the process has ended. */
    method Do(a: Action)
      requires Valid() && Plainly(a)
      modifies this, conf, gstk
      ensures Valid() && View() == Step(old(View()), a)
    {
      hide MapOf, Lower, EvalSimple, ListValue, Atoi;
      if ended {
        return;
      }
      match a {
        case Simply(s) => if iftrue { DoSimple(s); }
        case PushInt(d) => if iftrue { PushElem(Int(Atoi(d))); }
        case PushStr(t) => if iftrue { PushElem(Str(t)); }
        case KindInt => intstk := true;
        case KindStr => intstk := false;
        case AssignList(id) => DoAssignList(id);
        case _ => DoControl(a);
      }
    }

    /** The actions of if and switch statements. */
    method DoControl(a: Action)
      requires Valid() && !ended && IsControl(a)
      modifies `iftrue, `ifevertrue, `swValue, `swTf, `ended, `faulted
      ensures Valid() && View() == Step(old(View()), a)
    {
      hide MapOf, Lower, EvalSimple, ListValue, Atoi;
      match a {
        case StartIf(id) =>
          var val := conf.GetInteger(id);
          iftrue := val > 0;
          ifevertrue := iftrue;
        case StopIf => iftrue := true;
        case StartElif(read) =>
          if !ifevertrue {
            var val := conf.LookupToken(read);
            if val.None? {
              ended, faulted := true, true;
            } else {
              iftrue := val.value > 0;
              ifevertrue := iftrue;
            }
          } else {
            iftrue := false;
          }
        case StartElse => iftrue := !ifevertrue;
        case StopElse => iftrue, ifevertrue := true, false;
        case StartSwitch(id) =>
          var val := conf.GetInteger(id);
          swValue, iftrue, swTf := val, false, false;
        case EndSwitch => iftrue := true;
        case CaseLabel(n) => if swValue == n { iftrue, swTf := true, true; }
        case DefaultLabel => if !swTf { iftrue := true; }
        case BreakStm => iftrue := false;
      }
    }
  }

  /** The world before the program is read: a store with one entry. */
  function Preset(variable: string, value: int): World {
    World(Set(map[], variable, IntValue(value)), [], false, false)
  }

  /** initial_sysconf_module: one preset variable, then the program.  The actions leave the world
      that the structured evaluator gives, with else-if reading what it reads. */
  method Configure(variable: string, value: int, prog: seq<Statement>) returns (it: Interpreter)
    requires forall i :: 0 <= i < |prog| ==> WellFormed(prog[i])
    ensures fresh(it) && it.Valid()
    ensures it.View().w == EvalCodedProgram(Preset(variable, value), prog)
  {
    hide Step, WellFormed, MapOf, EvalCodedProgram, Exec, OfProgram, Lower;
    it := new Interpreter();
    it.conf.AddValue(variable, IntValue(value));
    ghost var start := it.View();
    var acts := OfProgram(prog);
    ProgramPlainly(prog);
    ExecNone(start);
    for i := 0 to |acts|
      invariant fresh(it) && fresh(it.conf) && fresh(it.gstk) && it.Valid()
      invariant it.View() == Exec(start, acts[..i])
    {
      it.Do(acts[i]);
      ExecSnoc(start, acts[..i], acts[i]);
      assert acts[..i + 1] == acts[..i] + [acts[i]];
    }
    assert acts[..|acts|] == acts;
    ProgramOk(start, prog);
  }
}
