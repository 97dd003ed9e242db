/** The semantic actions of the sys_conf grammar: a one-pass machine with four flags and a
    stack for list elements, driven by the actions in the order the parser reduces. */
module ConfMachine {
  import opened Options
  import opened ConfLang

  datatype Action =
    | Simply(s: Simple)                    // assignments, print and exit
    | PushInt(d: string) | PushStr(t: Option<string>)
    | KindInt | KindStr | AssignList(id: string)
    | StartIf(id: string) | StopIf
    | StartElif(read: Token) | StartElse | StopElse
    | StartSwitch(id: string) | EndSwitch
    | CaseLabel(n: nat) | DefaultLabel | BreakStm

  /** An element of the generic stack. */
  datatype Elem = Int(n: int) | Str(t: Option<string>)

  datatype Machine = Machine(
    w: World, iftrue: bool, ifevertrue: bool, swValue: int, swTf: bool, stack: seq<Elem>, intstk: bool)

  /** The elements in the order pop_int and pop_str give them. */
  function PopInts(stack: seq<Elem>): (r: seq<int>)
    ensures |r| == |stack|
  {
    if stack == [] then []
    else
      var e := stack[|stack| - 1];
      [if e.Int? then e.n else 0] + PopInts(stack[..|stack| - 1])
  }

  function PopStrs(stack: seq<Elem>): (r: seq<Option<string>>)
    ensures |r| == |stack|
  {
    if stack == [] then []
    else
      var e := stack[|stack| - 1];
      [if e.Str? then e.t else None] + PopStrs(stack[..|stack| - 1])
  }

  function Push(stack: seq<Elem>, e: Elem): seq<Elem> {
    if |stack| < LIST_MAX then stack + [e] else stack
  }

  function ListValue(m: Machine): Value {
    if m.intstk then Value(|m.stack|, None, Some(PopInts(m.stack)), None)
    else Value(|m.stack|, None, None, Some(PopStrs(m.stack)))
  }

  function Step(m: Machine, a: Action): Machine {
    if m.w.ended then m
    else match a
      case Simply(s) => if m.iftrue then m.(w := EvalSimple(m.w, s, true)) else m
      case PushInt(d) => if m.iftrue then m.(stack := Push(m.stack, Int(Atoi(d)))) else m
      case PushStr(t) => if m.iftrue then m.(stack := Push(m.stack, Str(t))) else m
      case KindInt => m.(intstk := true)
      case KindStr => m.(intstk := false)
      case AssignList(id) =>
        (if m.iftrue then m.(w := m.w.(st := Set(m.w.st, id, ListValue(m)))) else m).(stack := [])
      case StartIf(id) =>
        var t := GetInt(m.w.st, id) > 0;
        m.(iftrue := t, ifevertrue := t)
      case StopIf => m.(iftrue := true)
      case StartElif(read) =>
        if !m.ifevertrue then
          var val := Lookup(m.w.st, read);
          if val.None? then m.(w := Fault(m.w))
          else m.(iftrue := val.value > 0, ifevertrue := val.value > 0)
        else m.(iftrue := false)
      case StartElse => m.(iftrue := !m.ifevertrue)
      case StopElse => m.(iftrue := true, ifevertrue := false)
      case StartSwitch(id) => m.(swValue := GetInt(m.w.st, id), iftrue := false, swTf := false)
      case EndSwitch => m.(iftrue := true)
      case CaseLabel(n) => if m.swValue == n then m.(iftrue := true, swTf := true) else m
      case DefaultLabel => if !m.swTf then m.(iftrue := true) else m
      case BreakStm => m.(iftrue := false)
  }

  function Exec(m: Machine, acts: seq<Action>): Machine
    decreases |acts|
  {
    if acts == [] then m else Exec(Step(m, acts[0]), acts[1..])
  }

  // ---------- the actions of a program, in reduction order ----------

  /** List elements are reduced from the last one to the first. */
  function PushInts(xs: seq<string>): seq<Action> {
    if xs == [] then [] else PushInts(xs[1..]) + [PushInt(xs[0])]
  }

  function PushStrs(ss: seq<Option<string>>): seq<Action> {
    if ss == [] then [] else PushStrs(ss[1..]) + [PushStr(ss[0])]
  }

  function OfSimple(s: Simple): seq<Action> {
    match s
    case SetInts(id, xs) => PushInts(xs) + [KindInt, AssignList(id)]
    case SetStrs(id, ss) => PushStrs(ss) + [KindStr, AssignList(id)]
    case _ => [Simply(s)]
  }

  function OfBody(body: seq<Simple>): seq<Action> {
    if body == [] then [] else OfSimple(body[0]) + OfBody(body[1..])
  }

  function OfLabels(labels: seq<nat>): seq<Action> {
    if labels == [] then [] else [CaseLabel(labels[0])] + OfLabels(labels[1..])
  }

  function OfGroup(g: Group): seq<Action> {
    OfLabels(g.labels) + OfBody(g.body) + if g.brk then [BreakStm] else []
  }

  function OfGroups(groups: seq<Group>): seq<Action> {
    if groups == [] then [] else OfGroup(groups[0]) + OfGroups(groups[1..])
  }

  function OfDefault(d: Option<Default>): seq<Action> {
    if d.None? then [] else OfLabels(d.value.labels) + [DefaultLabel] + OfBody(d.value.body) + [BreakStm]
  }

  function OfStatement(s: Statement): seq<Action> {
    match s
    case Plain(p) => OfSimple(p)
    case If(id, thn) => [StartIf(id)] + OfBody(thn) + [StopIf]
    case IfElse(id, thn, els) => [StartIf(id)] + OfBody(thn) + [StartElse] + OfBody(els) + [StopElse]
    case IfElifElse(id, thn, id2, elif, els) =>
      [StartIf(id)] + OfBody(thn) + [StartElif(Stale(s))] + OfBody(elif) + [StartElse] + OfBody(els) + [StopElse]
    case Switch(id, groups, dflt) => [StartSwitch(id)] + OfGroups(groups) + OfDefault(dflt) + [EndSwitch]
  }

  function OfProgram(prog: seq<Statement>): seq<Action> {
    if prog == [] then [] else OfStatement(prog[0]) + OfProgram(prog[1..])
  }

  // ---------- running concatenations ----------

  lemma {:induction false} ExecConcat(m: Machine, a: seq<Action>, b: seq<Action>)
    ensures Exec(m, a + b) == Exec(Exec(m, a), b)
    decreases |a|
  {
    hide Step;
    if a == [] {
      assert a + b == b;
    } else {
      assert (a + b)[1..] == a[1..] + b;
      ExecConcat(Step(m, a[0]), a[1..], b);
    }
  }

  lemma ExecOne(m: Machine, a: Action)
    ensures Exec(m, [a]) == Step(m, a)
  {
    hide Step;
    assert [a][1..] == [];
  }

  lemma {:induction false} ExecExited(m: Machine, acts: seq<Action>)
    requires m.w.ended
    ensures Exec(m, acts) == m
    decreases |acts|
  {
    if acts != [] {
      ExecExited(m, acts[1..]);
    }
  }
}
