/** The configuration language of sys_conf: its statements, the store they fill, and a
    structured evaluator that says what a program means. */
module ConfLang {
  import opened Options

  // ---------- the store ----------

  /** One entry of the store, without its key and links. */
  datatype Value = Value(ivalue: int, text: Option<string>, list: Option<seq<int>>, slist: Option<seq<Option<string>>>)

  function LowerChar(c: char): char {
    if 'A' <= c <= 'Z' then c - 'A' + 'a' else c
  }

  /** Keys that strcasecmp treats alike have the same lower-case form. */
  function Lower(s: string): string {
    seq(|s|, i requires 0 <= i < |s| => LowerChar(s[i]))
  }

  type Store = map<string, Value>

  /** sysconf_int: -1 when there is no entry. */
  function GetInt(st: Store, key: string): int {
    if Lower(key) in st then st[Lower(key)].ivalue else -1
  }

  function Set(st: Store, key: string, v: Value): Store { st[Lower(key) := v] }

  function IntValue(i: int): Value { Value(i, None, None, None) }

  /** strip_qstring: drop the first character, keep at most 4095, drop the last one. */
  function Strip(s: string): string
    requires s != ""
  {
    var t := if |s| <= 4096 then s[1..] else s[1..4096];
    if t == "" then "" else t[..|t| - 1]
  }

  /** What addentry_string stores for a text; a missing text stands for NULL. */
  function StoredText(v: Option<string>): Option<string> {
    if v.None? || v.value == "" then v
    else if v.value[0] == '"' then (if Strip(v.value) == "" then None else Some(Strip(v.value)))
    else v
  }

  /** The value of a token of decimal digits. */
  function Atoi(d: string): nat {
    if d == "" then 0
    else Atoi(d[..|d| - 1]) * 10 + if '0' <= d[|d| - 1] <= '9' then (d[|d| - 1] - '0') as nat else 0
  }

  function Atois(ds: seq<string>): (r: seq<int>)
    ensures |r| == |ds|
  {
    seq(|ds|, i requires 0 <= i < |ds| => Atoi(ds[i]))
  }

  // ---------- statements ----------

  datatype Simple =
    | SetInt(id: string, digits: string)
    | SetStr(id: string, s: Option<string>)
    | SetOn(id: string)
    | SetOff(id: string)
    | SetInts(id: string, xs: seq<string>)
    | SetStrs(id: string, ss: seq<Option<string>>)
    | Print(text: Option<string>)
    | Exit

  /** `case` labels, statements, and possibly `break`. */
  datatype Group = Group(labels: seq<nat>, body: seq<Simple>, brk: bool)

  /** Labels, `default:`, statements and the `break` that the grammar insists on. */
  datatype Default = Default(labels: seq<nat>, body: seq<Simple>)

  datatype Statement =
    | Plain(s: Simple)
    | If(id: string, thn: seq<Simple>)
    | IfElse(id: string, thn: seq<Simple>, els: seq<Simple>)
    | IfElifElse(id: string, thn: seq<Simple>, id2: string, elif: seq<Simple>, els: seq<Simple>)
    | Switch(id: string, groups: seq<Group>, dflt: Option<Default>)

  /** What a program can be seen to do: fill the store, print, and end the process, by `exit` or
      by a fault. */
  datatype World = World(st: Store, out: seq<string>, ended: bool, faulted: bool)

  /** The process ends by a use of memory that is not its own. */
  function Fault(w: World): World { w.(ended := true, faulted := true) }

  const LIST_MAX: nat := 64

  /** A list keeps its last 64 elements. */
  function Kept<T>(xs: seq<T>): seq<T> {
    if |xs| <= LIST_MAX then xs else xs[|xs| - LIST_MAX..]
  }

  /** The escapes of `print`: \n, \r and \\; a backslash before anything else drops both. */
  function Unescape(s: string, escaped: bool): string {
    if s == "" then ""
    else if escaped then
      (match s[0] case 'n' => "\n" case 'r' => "\r" case '\\' => "\\" case _ => "") + Unescape(s[1..], false)
    else if s[0] == '\\' then Unescape(s[1..], true)
    else [s[0]] + Unescape(s[1..], false)
  }

  // ---------- meaning ----------

  /** A statement as the language means it or as the actions carry it out: printing an empty
      string hands a null pointer to strlen. */
  function EvalSimple(w: World, s: Simple, coded: bool): World {
    if w.ended then w
    else match s
      case SetInt(id, d) => w.(st := Set(w.st, id, IntValue(Atoi(d))))
      case SetStr(id, t) => w.(st := Set(w.st, id, Value(-1, StoredText(t), None, None)))
      case SetOn(id) => w.(st := Set(w.st, id, IntValue(1)))
      case SetOff(id) => w.(st := Set(w.st, id, IntValue(0)))
      case SetInts(id, xs) =>
        w.(st := Set(w.st, id, Value(|Kept(xs)|, None, Some(Atois(Kept(xs))), None)))
      case SetStrs(id, ss) =>
        w.(st := Set(w.st, id, Value(|Kept(ss)|, None, None, Some(Kept(ss)))))
      case Print(t) =>
        if t.Some? then w.(out := w.out + [Unescape(t.value, false)])
        else if coded then Fault(w)
        else w.(out := w.out + [""])
      case Exit => w.(ended := true)
  }

  function EvalBody(w: World, body: seq<Simple>, coded: bool): World
    decreases |body|
  {
    if body == [] then w else EvalBody(EvalSimple(w, body[0], coded), body[1..], coded)
  }

  /** Run groups one after the other until a break; the default comes last. */
  function RunFrom(w: World, groups: seq<Group>, dflt: Option<Default>, coded: bool): World
    decreases |groups|
  {
    if groups == [] then (if dflt.None? then w else EvalBody(w, dflt.value.body, coded))
    else
      var w' := EvalBody(w, groups[0].body, coded);
      if groups[0].brk then w' else RunFrom(w', groups[1..], dflt, coded)
  }

  /** A C switch: jump to the label that matches, or else to the default, and fall through. */
  function EvalSwitch(w: World, v: int, groups: seq<Group>, dflt: Option<Default>, coded: bool): World
    decreases |groups|
  {
    if groups == [] then (if dflt.None? then w else EvalBody(w, dflt.value.body, coded))
    else if v in groups[0].labels then RunFrom(w, groups, dflt, coded)
    else EvalSwitch(w, v, groups[1..], dflt, coded)
  }

  /** The branch of an if / else-if / else: the first one whose condition holds. */
  function Branch(w: World, s: Statement): nat
    requires s.IfElifElse?
  {
    if GetInt(w.st, s.id) > 0 then 0 else if GetInt(w.st, s.id2) > 0 then 1 else 2
  }

  /** The body of branch `b`. */
  function Arm(s: Statement, b: nat): seq<Simple>
    requires s.IfElifElse?
  {
    if b == 0 then s.thn else if b == 1 then s.elif else s.els
  }

  /** A statement other than if / else-if / else. */
  function EvalOther(w: World, s: Statement, coded: bool): World
    requires !s.IfElifElse?
  {
    match s
    case Plain(p) => EvalSimple(w, p, coded)
    case If(id, thn) => if GetInt(w.st, id) > 0 then EvalBody(w, thn, coded) else w
    case IfElse(id, thn, els) => EvalBody(w, if GetInt(w.st, id) > 0 then thn else els, coded)
    case Switch(id, groups, dflt) => EvalSwitch(w, GetInt(w.st, id), groups, dflt, coded)
  }

  /** What the language is meant to say. */
  function Eval(w: World, s: Statement): World {
    if s.IfElifElse? then EvalBody(w, Arm(s, Branch(w, s)), false) else EvalOther(w, s, false)
  }

  function EvalProgram(w: World, prog: seq<Statement>): World
    decreases |prog|
  {
    if prog == [] then w else EvalProgram(Eval(w, prog[0]), prog[1..])
  }

  // ---------- what the else-if action reads instead ----------

  /** The value of a token when a later action looks at it: a text that its own action has
      freed, the null pointer of an empty string, or a text that is still there. */
  datatype Token = Freed | Null | Live(name: string)

  /** The last token of a skipped statement that has a value; `exit` has none.  Every action
      frees the texts of its tokens, except that of a list of strings. */
  function LastToken(before: Token, s: Simple): Token {
    match s
    case SetInt(id, d) => Freed
    case SetStr(id, t) => if t.None? then Null else Freed
    case SetOn(id) => Freed
    case SetOff(id) => Freed
    case SetInts(id, xs) => Freed
    case SetStrs(id, ss) =>
      if ss == [] then Freed else if ss[|ss| - 1].None? then Null else Live(ss[|ss| - 1].value)
    case Print(t) => if t.None? then Null else Freed
    case Exit => before
  }

  function LastTokens(before: Token, body: seq<Simple>): Token
    decreases |body|
  {
    if body == [] then before else LastTokens(LastToken(before, body[0]), body[1..])
  }

  /** The else-if action takes the value of its third symbol, the opening parenthesis.  The
      lexer gives that token no value of its own, so it carries the last one before it, which
      belongs to the first branch, or else to the first condition. */
  function Stale(s: Statement): Token
    requires s.IfElifElse?
  {
    LastTokens(Freed, s.thn)
  }

  /** sysconf_int on such a value, and the release of it; nothing if that is a fault.  A null
      pointer goes unnoticed only if there is no entry to compare it with. */
  function Lookup(st: Store, t: Token): Option<int> {
    match t
    case Freed => None
    case Null => if st == map[] then Some(-1) else None
    case Live(name) => Some(GetInt(st, name))
  }

  /** The branch that the actions take, or none when the else-if faults. */
  function CodedBranch(w: World, s: Statement): Option<nat>
    requires s.IfElifElse?
  {
    var val := Lookup(w.st, Stale(s));
    if GetInt(w.st, s.id) > 0 then Some(0)
    else if val.None? then None
    else if val.value > 0 then Some(1) else Some(2)
  }

  /** What the actions make of a statement. */
  function EvalCoded(w: World, s: Statement): World {
    if w.ended then w
    else if s.IfElifElse? then
      var b := CodedBranch(w, s);
      if b.None? then Fault(w) else EvalBody(w, Arm(s, b.value), true)
    else EvalOther(w, s, true)
  }

  function EvalCodedProgram(w: World, prog: seq<Statement>): World
    decreases |prog|
  {
    if prog == [] then w else EvalCodedProgram(EvalCoded(w, prog[0]), prog[1..])
  }

  /** The first condition holds, or the value read can be looked up and decides like the name
      that is meant. */
  predicate ElifAgrees(w: World, s: Statement) {
    s.IfElifElse? && !w.ended ==>
      var val := Lookup(w.st, Stale(s));
      GetInt(w.st, s.id) > 0 || (val.Some? && (val.value > 0 <==> GetInt(w.st, s.id2) > 0))
  }

  /** The actions take the branch that is meant exactly when the first condition holds, or the
      value read can be looked up and decides alike. */
  lemma BranchExact(w: World, s: Statement)
    requires s.IfElifElse? && !w.ended
    ensures CodedBranch(w, s) == Some(Branch(w, s)) <==> ElifAgrees(w, s)
  {
  }

  /** Over a store with any entry an else-if is reached without a fault only if the first branch
      ends, but for `exit`, with a list of strings whose last one is not empty. */
  lemma FaultExact(w: World, s: Statement)
    requires s.IfElifElse? && !w.ended && w.st != map[]
    ensures CodedBranch(w, s) == None <==> GetInt(w.st, s.id) <= 0 && !EndsWithStrings(s.thn)
  {
    hide GetInt;
    StaleLive(Freed, s.thn);
  }

  predicate EndsWithStrings(body: seq<Simple>) {
    body != [] &&
      var n := |body| - 1;
      var s := body[n];
      if s.Exit? then EndsWithStrings(body[..n]) else s.SetStrs? && s.ss != [] && s.ss[|s.ss| - 1].Some?
  }

  lemma {:induction false} StaleLive(before: Token, body: seq<Simple>)
    requires !before.Live?
    ensures LastTokens(before, body).Live? <==> EndsWithStrings(body)
    decreases |body|
  {
    if body != [] {
      var n := |body| - 1;
      StaleLive(before, body[..n]);
      LastTokensSnoc(before, body[..n], body[n]);
      assert body == body[..n] + [body[n]];
    }
  }

  lemma {:induction false} LastTokensSnoc(before: Token, body: seq<Simple>, s: Simple)
    ensures LastTokens(before, body + [s]) == LastToken(LastTokens(before, body), s)
    decreases |body|
  {
    hide LastToken;
    if body == [] {
      assert body + [s] == [s] && [s][1..] == [];
    } else {
      LastTokensSnoc(LastToken(before, body[0]), body[1..], s);
      assert (body + [s])[1..] == body[1..] + [s];
    }
  }

  // ---------- which statements a run executes ----------

  function TakenFrom(groups: seq<Group>, dflt: Option<Default>): seq<Simple> {
    if groups == [] then (if dflt.None? then [] else dflt.value.body)
    else groups[0].body + if groups[0].brk then [] else TakenFrom(groups[1..], dflt)
  }

  function TakenSwitch(v: int, groups: seq<Group>, dflt: Option<Default>): seq<Simple> {
    if groups == [] || v in groups[0].labels then TakenFrom(groups, dflt) else TakenSwitch(v, groups[1..], dflt)
  }

  /** The simple statements that are meant to be executed, one after the other. */
  function Taken(w: World, s: Statement): seq<Simple> {
    match s
    case Plain(p) => [p]
    case If(id, thn) => if GetInt(w.st, id) > 0 then thn else []
    case IfElse(id, thn, els) => if GetInt(w.st, id) > 0 then thn else els
    case IfElifElse(_, _, _, _, _) => Arm(s, Branch(w, s))
    case Switch(id, groups, dflt) => TakenSwitch(GetInt(w.st, id), groups, dflt)
  }

  lemma {:induction false} BodyConcat(w: World, a: seq<Simple>, b: seq<Simple>, coded: bool)
    ensures EvalBody(w, a + b, coded) == EvalBody(EvalBody(w, a, coded), b, coded)
    decreases |a|
  {
    hide EvalSimple;
    if a == [] {
      assert a + b == b;
    } else {
      assert (a + b)[1..] == a[1..] + b;
      BodyConcat(EvalSimple(w, a[0], coded), a[1..], b, coded);
    }
  }

  lemma {:induction false} RunTaken(w: World, groups: seq<Group>, dflt: Option<Default>, coded: bool)
    ensures RunFrom(w, groups, dflt, coded) == EvalBody(w, TakenFrom(groups, dflt), coded)
    decreases |groups|
  {
    if groups != [] {
      hide EvalBody;
      var rest := if groups[0].brk then [] else TakenFrom(groups[1..], dflt);
      BodyConcat(w, groups[0].body, rest, coded);
      NoBody(EvalBody(w, groups[0].body, coded), coded);
      RunTaken(EvalBody(w, groups[0].body, coded), groups[1..], dflt, coded);
    }
  }

  lemma NoBody(w: World, coded: bool)
    ensures EvalBody(w, [], coded) == w
  {
  }

  lemma {:induction false} SwitchTaken(w: World, v: int, groups: seq<Group>, dflt: Option<Default>, coded: bool)
    ensures EvalSwitch(w, v, groups, dflt, coded) == EvalBody(w, TakenSwitch(v, groups, dflt), coded)
    decreases |groups|
  {
    RunTaken(w, groups, dflt, coded);
    if groups != [] {
      SwitchTaken(w, v, groups[1..], dflt, coded);
    }
  }

  lemma OtherTaken(w: World, s: Statement, coded: bool)
    requires !s.IfElifElse?
    ensures EvalOther(w, s, coded) == EvalBody(w, Taken(w, s), coded)
  {
    match s
    case Plain(p) =>
      assert [p][1..] == [];
    case If(_, _) =>
    case IfElse(_, _, _) =>
    case Switch(id, groups, dflt) => SwitchTaken(w, GetInt(w.st, id), groups, dflt, coded);
  }

  // ---------- printing an empty string ----------

  /** The statements get to a print of an empty string. */
  predicate PrintsEmpty(w: World, body: seq<Simple>)
    decreases |body|
  {
    body != [] && !w.ended && (body[0] == Print(None) || PrintsEmpty(EvalSimple(w, body[0], false), body[1..]))
  }

  lemma {:induction false} BodyEnded(w: World, body: seq<Simple>, coded: bool)
    requires w.ended
    ensures EvalBody(w, body, coded) == w
    decreases |body|
  {
    if body != [] {
      BodyEnded(w, body[1..], coded);
    }
  }

  /** The actions fault in a body exactly when it gets to a print of an empty string, and otherwise
      do what is meant. */
  lemma {:induction false} BodyExact(w: World, body: seq<Simple>)
    requires !w.faulted
    ensures EvalBody(w, body, true).faulted <==> PrintsEmpty(w, body)
    ensures !PrintsEmpty(w, body) ==> EvalBody(w, body, true) == EvalBody(w, body, false)
    decreases |body|
  {
    if body != [] {
      var v := EvalSimple(w, body[0], true);
      SimpleExact(w, body[0]);
      hide EvalSimple;
      if v.ended {
        BodyEnded(v, body[1..], true);
        BodyEnded(v, body[1..], false);
      }
      if !v.faulted {
        BodyExact(v, body[1..]);
      }
    }
  }

  lemma SimpleExact(w: World, s: Simple)
    requires !w.faulted
    ensures EvalSimple(w, s, true).faulted <==> s == Print(None) && !w.ended
    ensures EvalSimple(w, s, true).faulted ==> EvalSimple(w, s, true).ended
    ensures !EvalSimple(w, s, true).faulted ==> EvalSimple(w, s, true) == EvalSimple(w, s, false)
    ensures w.ended ==> EvalSimple(w, s, true) == w
  {
  }

  // ---------- whole programs ----------

  ghost predicate ElifsAgree(w: World, prog: seq<Statement>)
    decreases |prog|
  {
    prog != [] ==> ElifAgrees(w, prog[0]) && ElifsAgree(Eval(w, prog[0]), prog[1..])
  }

  /** The run that is meant gets to a print of an empty string. */
  ghost predicate EverPrintsEmpty(w: World, prog: seq<Statement>)
    decreases |prog|
  {
    prog != [] && (PrintsEmpty(w, Taken(w, prog[0])) || EverPrintsEmpty(Eval(w, prog[0]), prog[1..]))
  }

  /** The branches that a run takes at its else-ifs, as meant and as coded. */
  ghost function Choices(w: World, prog: seq<Statement>): seq<Option<nat>>
    decreases |prog|
  {
    if prog == [] then []
    else
      (if prog[0].IfElifElse? && !w.ended then [Some(Branch(w, prog[0]))] else [])
      + Choices(Eval(w, prog[0]), prog[1..])
  }

  ghost function CodedChoices(w: World, prog: seq<Statement>): seq<Option<nat>>
    decreases |prog|
  {
    if prog == [] then []
    else
      (if prog[0].IfElifElse? && !w.ended then [CodedBranch(w, prog[0])] else [])
      + CodedChoices(EvalCoded(w, prog[0]), prog[1..])
  }

  lemma EvalTaken(w: World, s: Statement)
    ensures Eval(w, s) == EvalBody(w, Taken(w, s), false)
  {
    if !s.IfElifElse? {
      OtherTaken(w, s, false);
    }
  }

  /** Where the else-if agrees, the actions execute the statements that are meant. */
  lemma CodedTaken(w: World, s: Statement)
    requires ElifAgrees(w, s)
    ensures EvalCoded(w, s) == EvalBody(w, Taken(w, s), true)
  {
    hide EvalBody, Branch, CodedBranch, ElifAgrees;
    if w.ended {
      BodyEnded(w, Taken(w, s), true);
    } else if s.IfElifElse? {
      BranchExact(w, s);
    } else {
      OtherTaken(w, s, true);
    }
  }

  /** One statement whose else-if, if it has one, agrees. */
  lemma StatementExact(w: World, s: Statement)
    requires !w.faulted && ElifAgrees(w, s)
    ensures EvalCoded(w, s).faulted <==> PrintsEmpty(w, Taken(w, s))
    ensures !EvalCoded(w, s).faulted ==> EvalCoded(w, s) == Eval(w, s)
  {
    hide EvalBody, PrintsEmpty, ElifAgrees, Taken;
    EvalTaken(w, s);
    CodedTaken(w, s);
    BodyExact(w, Taken(w, s));
  }

  lemma {:induction false} EndedStays(w: World, prog: seq<Statement>)
    requires w.ended
    ensures EvalCodedProgram(w, prog) == w
    decreases |prog|
  {
    if prog != [] {
      EndedStays(w, prog[1..]);
    }
  }

  lemma FaultEnds(w: World, s: Statement)
    requires !w.faulted && EvalCoded(w, s).faulted
    ensures EvalCoded(w, s).ended
  {
    hide EvalBody, EvalSwitch, RunFrom, Taken, Lookup, GetInt;
    if !s.IfElifElse? {
      OtherTaken(w, s, true);
      BodyFaultEnds(w, Taken(w, s));
    } else {
      BodyFaultEnds(w, s.thn);
      BodyFaultEnds(w, s.elif);
      BodyFaultEnds(w, s.els);
    }
  }

  lemma {:induction false} BodyFaultEnds(w: World, body: seq<Simple>)
    requires !w.faulted
    ensures EvalBody(w, body, true).faulted ==> EvalBody(w, body, true).ended
    decreases |body|
  {
    if body != [] {
      var v := EvalSimple(w, body[0], true);
      SimpleExact(w, body[0]);
      hide EvalSimple;
      if v.faulted {
        BodyEnded(v, body[1..], true);
      } else {
        BodyFaultEnds(v, body[1..]);
      }
    }
  }

  /** A run of the actions goes the way that is meant, without a fault, exactly when all its
      else-ifs agree and it never gets to a print of an empty string. */
  lemma {:induction false} ChoicesExact(w: World, prog: seq<Statement>)
    requires !w.faulted
    ensures CodedChoices(w, prog) == Choices(w, prog) && !EvalCodedProgram(w, prog).faulted
       <==> ElifsAgree(w, prog) && !EverPrintsEmpty(w, prog)
    decreases |prog|
  {
    hide Branch, CodedBranch, ElifAgrees, Eval, EvalCoded, Taken, PrintsEmpty;
    if prog != [] {
      var s := prog[0];
      var v, v' := Eval(w, s), EvalCoded(w, s);
      if s.IfElifElse? && !w.ended {
        BranchExact(w, s);
        SameCons(Some(Branch(w, s)), Choices(v, prog[1..]), CodedBranch(w, s), CodedChoices(v', prog[1..]));
      } else {
        Agrees(w, s);
        assert Choices(w, prog) == Choices(v, prog[1..]) && CodedChoices(w, prog) == CodedChoices(v', prog[1..]);
      }
      if ElifAgrees(w, s) {
        StatementExact(w, s);
        if v'.faulted {
          FaultEnds(w, s);
          EndedStays(v', prog[1..]);
        } else {
          ChoicesExact(v, prog[1..]);
        }
      }
    }
  }

  lemma SameCons<T>(x: T, xs: seq<T>, y: T, ys: seq<T>)
    ensures [x] + xs == [y] + ys <==> x == y && xs == ys
  {
    assert ([x] + xs)[0] == x && ([y] + ys)[0] == y && ([x] + xs)[1..] == xs && ([y] + ys)[1..] == ys;
  }

  lemma Agrees(w: World, s: Statement)
    requires !s.IfElifElse? || w.ended
    ensures ElifAgrees(w, s)
  {
  }

  /** Then the actions do what the language means, and do not fault. */
  lemma {:induction false} CodedIsMeant(w: World, prog: seq<Statement>)
    requires !w.faulted && ElifsAgree(w, prog) && !EverPrintsEmpty(w, prog)
    ensures EvalCodedProgram(w, prog) == EvalProgram(w, prog) && !EvalProgram(w, prog).faulted
    decreases |prog|
  {
    hide ElifAgrees, Eval, EvalCoded, Taken, PrintsEmpty;
    if prog != [] {
      StatementExact(w, prog[0]);
      CodedIsMeant(Eval(w, prog[0]), prog[1..]);
    }
  }

  // ---------- four programs that go wrong ----------

  /** `print "";` is meant to print an empty text, and faults. */
  lemma PrintCounterexample(w: World)
    requires !w.ended && !w.faulted
    ensures var prog := [Plain(Print(None))];
            && EvalProgram(w, prog) == w.(out := w.out + [""]) && EvalCodedProgram(w, prog) == Fault(w)
            && ElifsAgree(w, prog) && EverPrintsEmpty(w, prog)
  {
    var prog := [Plain(Print(None))];
    assert prog[1..] == [];
    assert EvalProgram(w, prog) == EvalProgram(Eval(w, prog[0]), prog[1..]);
    assert EvalCodedProgram(w, prog) == EvalCodedProgram(EvalCoded(w, prog[0]), prog[1..]);
    assert Taken(w, prog[0])[0] == Print(None);
  }

  /** `if (a) { ... } else-if (c) { d = 1; } else { e = 1; }` */
  function Sample(thn: Simple): Statement {
    IfElifElse("a", [thn], "c", [SetInt("d", "1")], [SetInt("e", "1")])
  }

  const ONLY_C := World(map["c" := IntValue(1)], [], false, false)

  lemma SampleMeans()
    ensures forall thn :: "d" in Eval(ONLY_C, Sample(thn)).st && !Eval(ONLY_C, Sample(thn)).faulted
  {
    LowerId("a");
    LowerId("c");
    LowerId("d");
    var elif := [SetInt("d", "1")];
    assert EvalBody(ONLY_C, elif, false) == EvalBody(EvalSimple(ONLY_C, elif[0], false), elif[1..], false);
  }

  /** With `b = 1` in the first branch the else-if reads a freed text; with `b = ""` it reads a
      null pointer; with `b = ["x"]` it looks up x and takes the third branch. */
  lemma ElifCounterexamples()
    ensures forall thn :: "d" in Eval(ONLY_C, Sample(thn)).st
    ensures EvalCoded(ONLY_C, Sample(SetInt("b", "1"))).faulted
    ensures EvalCoded(ONLY_C, Sample(SetStr("b", None))).faulted
    ensures var w := EvalCoded(ONLY_C, Sample(SetStrs("b", [Some("x")])));
            !w.faulted && "d" !in w.st && "e" in w.st
  {
    SampleMeans();
    LowerId("a");
    LowerId("x");
    LowerId("e");
    assert ONLY_C.st != map[] by { assert "c" in ONLY_C.st; }
    StaleSample(SetInt("b", "1"));
    StaleSample(SetStr("b", None));
    StaleSample(SetStrs("b", [Some("x")]));
    var els := [SetInt("e", "1")];
    assert EvalBody(ONLY_C, els, true) == EvalBody(EvalSimple(ONLY_C, els[0], true), els[1..], true);
  }

  lemma StaleSample(thn: Simple)
    ensures Stale(Sample(thn)) == LastToken(Freed, thn)
  {
    var body := Sample(thn).thn;
    assert LastTokens(Freed, body) == LastTokens(LastToken(Freed, body[0]), body[1..]);
  }

  lemma LowerId(s: string)
    requires forall i :: 0 <= i < |s| ==> !('A' <= s[i] <= 'Z')
    ensures Lower(s) == s
  {
  }
}
