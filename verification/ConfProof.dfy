/** The one-pass machine does exactly what the structured evaluator says. */
module ConfProof {
  import opened Options
  import opened ConfLang
  import opened ConfMachine

  // ---------- lists ----------

  function IntStack(xs: seq<string>): seq<Elem> {
    if xs == [] then [] else Push(IntStack(xs[1..]), Int(Atoi(xs[0])))
  }

  function StrStack(ss: seq<Option<string>>): seq<Elem> {
    if ss == [] then [] else Push(StrStack(ss[1..]), Str(ss[0]))
  }

  lemma {:induction false} IntsPushed(m: Machine, xs: seq<string>)
    requires !m.w.ended && m.stack == []
    ensures Exec(m, PushInts(xs)) == if m.iftrue then m.(stack := IntStack(xs)) else m
  {
    if xs != [] {
      hide Exec, Atoi;
      IntsPushed(m, xs[1..]);
      ExecConcat(m, PushInts(xs[1..]), [PushInt(xs[0])]);
      ExecOne(Exec(m, PushInts(xs[1..])), PushInt(xs[0]));
    }
  }

  lemma {:induction false} StrsPushed(m: Machine, ss: seq<Option<string>>)
    requires !m.w.ended && m.stack == []
    ensures Exec(m, PushStrs(ss)) == if m.iftrue then m.(stack := StrStack(ss)) else m
  {
    if ss != [] {
      hide Exec;
      StrsPushed(m, ss[1..]);
      ExecConcat(m, PushStrs(ss[1..]), [PushStr(ss[0])]);
      ExecOne(Exec(m, PushStrs(ss[1..])), PushStr(ss[0]));
    }
  }

  lemma KeptTail<T>(xs: seq<T>)
    requires xs != []
    ensures |Kept(xs[1..])| == if |xs| <= LIST_MAX then |xs| - 1 else LIST_MAX
    ensures Kept(xs) == if |xs| <= LIST_MAX then [xs[0]] + Kept(xs[1..]) else Kept(xs[1..])
  {
  }

  /** Popping what was pushed gives the elements in source order, the last 64 of them. */
  lemma {:induction false} IntsPopped(xs: seq<string>)
    ensures PopInts(IntStack(xs)) == Atois(Kept(xs))
  {
    if xs != [] {
      hide Atoi, Atois, Kept;
      IntsPopped(xs[1..]);
      KeptTail(xs);
      var s, e := IntStack(xs[1..]), Int(Atoi(xs[0]));
      if |xs| <= LIST_MAX {
        PopLastInt(s, e);
        AtoisCons(xs[0], Kept(xs[1..]));
      }
    }
  }

  lemma PopLastInt(s: seq<Elem>, e: Elem)
    requires e.Int?
    ensures PopInts(s + [e]) == [e.n] + PopInts(s)
  {
    assert (s + [e])[..|s|] == s;
  }

  lemma AtoisCons(x: string, ks: seq<string>)
    ensures Atois([x] + ks) == [Atoi(x)] + Atois(ks)
  {
    hide Atoi;
  }

  lemma {:induction false} StrsPopped(ss: seq<Option<string>>)
    ensures PopStrs(StrStack(ss)) == Kept(ss)
  {
    if ss != [] {
      StrsPopped(ss[1..]);
      KeptTail(ss);
      var s, e := StrStack(ss[1..]), Str(ss[0]);
      if |ss| <= LIST_MAX {
        assert (s + [e])[..|s|] == s;
        assert PopStrs(s + [e]) == [e.t] + PopStrs(s);
      }
    }
  }

  // ---------- simple statements and bodies ----------

  /** `m'` is `m` with world `w`; once the process has ended only the world matters. */
  predicate Became(m: Machine, m': Machine, w: World) {
    m'.w == w && (!w.ended ==> m' == m.(w := w, intstk := m'.intstk))
  }

  lemma SimpleOk(m: Machine, s: Simple)
    requires m.stack == []
    ensures Became(m, Exec(m, OfSimple(s)), if m.iftrue then EvalSimple(m.w, s, true) else m.w)
  {
    hide Exec, Atoi, PopInts, PopStrs, Atois, Kept, Unescape, StoredText;
    if m.w.ended {
      ExecExited(m, OfSimple(s));
    } else if s.SetInts? {
      IntsPushed(m, s.xs);
      IntsPopped(s.xs);
      ListEnd(m, PushInts(s.xs), KindInt, s.id);
    } else if s.SetStrs? {
      StrsPushed(m, s.ss);
      StrsPopped(s.ss);
      ListEnd(m, PushStrs(s.ss), KindStr, s.id);
    } else {
      ExecOne(m, Simply(s));
    }
  }

  lemma ListEnd(m: Machine, acts: seq<Action>, kind: Action, id: string)
    ensures Exec(m, acts + [kind, AssignList(id)]) == Step(Step(Exec(m, acts), kind), AssignList(id))
  {
    hide Step, Exec;
    var two := [kind, AssignList(id)];
    ExecConcat(m, acts, two);
    assert two == [kind] + [AssignList(id)];
    var n := Exec(m, acts);
    ExecConcat(n, [kind], [AssignList(id)]);
    ExecOne(n, kind);
    ExecOne(Step(n, kind), AssignList(id));
  }

  lemma {:induction false} BodyOk(m: Machine, body: seq<Simple>)
    requires m.stack == []
    ensures Became(m, Exec(m, OfBody(body)), if m.iftrue then EvalBody(m.w, body, true) else m.w)
    decreases |body|
  {
    hide Step, EvalSimple, OfSimple;
    if body != [] {
      var first, rest := OfSimple(body[0]), OfBody(body[1..]);
      SimpleOk(m, body[0]);
      ExecConcat(m, first, rest);
      var n := Exec(m, first);
      if n.w.ended {
        ExecExited(n, rest);
        BodyEnded(n.w, body[1..], true);
      } else {
        BodyOk(n, body[1..]);
      }
    }
  }

  // ---------- switches ----------

  lemma {:induction false} LabelsOk(m: Machine, labels: seq<nat>)
    requires !m.w.ended
    ensures Exec(m, OfLabels(labels)) == if m.swValue in labels then m.(iftrue := true, swTf := true) else m
    decreases |labels|
  {
    if labels != [] {
      hide Exec;
      var n := Step(m, CaseLabel(labels[0]));
      ExecConcat(m, [CaseLabel(labels[0])], OfLabels(labels[1..]));
      ExecOne(m, CaseLabel(labels[0]));
      LabelsOk(n, labels[1..]);
    } else {
      assert OfLabels(labels) == [];
    }
  }

  /** The value is the label of at most one group, counting the default's as well. */
  predicate Once(v: int, groups: seq<Group>, dflt: Option<Default>)
    decreases |groups|
  {
    groups != [] ==>
      (v in groups[0].labels ==> Nowhere(v, groups[1..], dflt)) && Once(v, groups[1..], dflt)
  }

  predicate Nowhere(v: int, groups: seq<Group>, dflt: Option<Default>)
    decreases |groups|
  {
    if groups == [] then dflt.Some? ==> v !in dflt.value.labels
    else v !in groups[0].labels && Nowhere(v, groups[1..], dflt)
  }

  function Rest(groups: seq<Group>, dflt: Option<Default>): seq<Action> {
    OfGroups(groups) + OfDefault(dflt) + [EndSwitch]
  }

  /** A group's statements run when it is entered running or one of its labels matches. */
  lemma GroupOk(m: Machine, g: Group)
    requires !m.w.ended && m.stack == []
    ensures var n := Exec(m, OfGroup(g));
            var run := m.iftrue || m.swValue in g.labels;
            var w := if run then EvalBody(m.w, g.body, true) else m.w;
            n.w == w && (!w.ended ==>
              n == m.(w := w, iftrue := run && !g.brk, swTf := m.swTf || m.swValue in g.labels, intstk := n.intstk))
  {
    hide Exec, EvalBody, OfBody, OfLabels;
    LabelsOk(m, g.labels);
    var a, b, c := OfLabels(g.labels), OfBody(g.body), if g.brk then [BreakStm] else [];
    ExecConcat(m, a + b, c);
    ExecConcat(m, a, b);
    var n1 := Exec(m, a);
    BodyOk(n1, g.body);
    var n2 := Exec(n1, b);
    if n2.w.ended {
      ExecExited(n2, c);
    } else if g.brk {
      ExecOne(n2, BreakStm);
    } else {
      ExecNone(n2);
    }
  }

  lemma ExecNone(m: Machine)
    ensures Exec(m, []) == m
  {
  }

  lemma DefaultOk(m: Machine, dflt: Option<Default>)
    requires !m.w.ended && m.stack == []
    ensures var n := Exec(m, OfDefault(dflt) + [EndSwitch]);
            var run := dflt.Some? && (m.iftrue || !m.swTf || m.swValue in dflt.value.labels);
            var w := if run then EvalBody(m.w, dflt.value.body, true) else m.w;
            n.w == w && (!w.ended ==> n.iftrue && n.stack == [] && n.ifevertrue == m.ifevertrue)
  {
    hide Exec, EvalBody, OfBody, OfLabels, Step;
    DefaultSteps(m);
    if dflt.None? {
      assert OfDefault(dflt) + [EndSwitch] == [EndSwitch];
      ExecOne(m, EndSwitch);
    } else {
      var a, b := OfLabels(dflt.value.labels), OfBody(dflt.value.body);
      DefaultChain(m, a, b);
      LabelsOk(m, dflt.value.labels);
      DefaultSteps(Exec(m, a));
      var n := Step(Exec(m, a), DefaultLabel);
      BodyOk(n, dflt.value.body);
      DefaultSteps(Exec(n, b));
    }
  }

  lemma DefaultSteps(m: Machine)
    ensures Step(m, DefaultLabel) == if !m.w.ended && !m.swTf then m.(iftrue := true) else m
    ensures Step(m, EndSwitch) == if m.w.ended then m else m.(iftrue := true)
    ensures Step(Step(m, BreakStm), EndSwitch) == Step(m, EndSwitch)
  {
  }

  lemma DefaultChain(m: Machine, a: seq<Action>, b: seq<Action>)
    ensures Exec(m, a + [DefaultLabel] + b + [BreakStm] + [EndSwitch])
         == Step(Step(Exec(Step(Exec(m, a), DefaultLabel), b), BreakStm), EndSwitch)
  {
    hide Exec, Step;
    ExecSnoc(m, a + [DefaultLabel] + b + [BreakStm], EndSwitch);
    ExecSnoc(m, a + [DefaultLabel] + b, BreakStm);
    ExecConcat(m, a + [DefaultLabel], b);
    ExecSnoc(m, a, DefaultLabel);
  }

  lemma ExecSnoc(m: Machine, acts: seq<Action>, a: Action)
    ensures Exec(m, acts + [a]) == Step(Exec(m, acts), a)
  {
    hide Exec, Step;
    ExecConcat(m, acts, [a]);
    ExecOne(Exec(m, acts), a);
  }

  // ---------- scanning the groups ----------

  lemma {:induction false} RunExited(w: World, groups: seq<Group>, dflt: Option<Default>)
    requires w.ended
    ensures RunFrom(w, groups, dflt, true) == w
    decreases |groups|
  {
    if groups == [] {
      if dflt.Some? { BodyEnded(w, dflt.value.body, true); }
    } else {
      BodyEnded(w, groups[0].body, true);
      RunExited(w, groups[1..], dflt);
    }
  }

  predicate Ends(m: Machine, n: Machine, w: World) {
    n.w == w && (!w.ended ==> n.iftrue && n.stack == [])
  }

  lemma NextGroup(m: Machine, groups: seq<Group>, dflt: Option<Default>)
    requires groups != []
    ensures Exec(m, Rest(groups, dflt)) == Exec(Exec(m, OfGroup(groups[0])), Rest(groups[1..], dflt))
  {
    hide Exec, OfGroup, OfDefault;
    var a, b, c := OfGroup(groups[0]), OfGroups(groups[1..]), OfDefault(dflt);
    assert a + b + c + [EndSwitch] == a + (b + c + [EndSwitch]);
    ExecConcat(m, a, Rest(groups[1..], dflt));
  }

  lemma NoGroups(m: Machine, dflt: Option<Default>)
    ensures Exec(m, Rest([], dflt)) == Exec(m, OfDefault(dflt) + [EndSwitch])
  {
    hide Exec, OfDefault;
    assert Rest([], dflt) == OfDefault(dflt) + [EndSwitch];
  }

  /** After the matching group's break nothing more runs. */
  lemma {:induction false} DoneOk(m: Machine, groups: seq<Group>, dflt: Option<Default>)
    requires !m.w.ended && m.stack == [] && !m.iftrue && m.swTf && Nowhere(m.swValue, groups, dflt)
    ensures Ends(m, Exec(m, Rest(groups, dflt)), m.w)
    decreases |groups|
  {
    hide Exec, OfGroup, OfDefault, EvalBody;
    if groups == [] {
      NoGroups(m, dflt);
      DefaultOk(m, dflt);
    } else {
      NextGroup(m, groups, dflt);
      GroupOk(m, groups[0]);
      DoneOk(Exec(m, OfGroup(groups[0])), groups[1..], dflt);
    }
  }

  /** From the matching group on, groups run until a break. */
  lemma {:induction false} RunOk(m: Machine, groups: seq<Group>, dflt: Option<Default>)
    requires !m.w.ended && m.stack == [] && m.iftrue && m.swTf && Nowhere(m.swValue, groups, dflt)
    ensures Ends(m, Exec(m, Rest(groups, dflt)), RunFrom(m.w, groups, dflt, true))
    decreases |groups|
  {
    hide Exec, OfGroup, OfDefault, EvalBody;
    if groups == [] {
      NoGroups(m, dflt);
      DefaultOk(m, dflt);
    } else {
      NextGroup(m, groups, dflt);
      GroupOk(m, groups[0]);
      AfterGroup(Exec(m, OfGroup(groups[0])), groups, dflt);
    }
  }

  /** The rest of the switch once the statements of a running group are through. */
  lemma {:induction false} AfterGroup(n: Machine, groups: seq<Group>, dflt: Option<Default>)
    requires groups != []
    requires !n.w.ended ==>
               n.stack == [] && n.swTf && Nowhere(n.swValue, groups[1..], dflt) && n.iftrue == !groups[0].brk
    ensures Ends(n, Exec(n, Rest(groups[1..], dflt)),
                 if groups[0].brk then n.w else RunFrom(n.w, groups[1..], dflt, true))
    decreases |groups|, 0
  {
    hide Exec, OfGroup, OfDefault, EvalBody;
    if n.w.ended {
      ExecExited(n, Rest(groups[1..], dflt));
      RunExited(n.w, groups[1..], dflt);
    } else if groups[0].brk {
      DoneOk(n, groups[1..], dflt);
    } else {
      RunOk(n, groups[1..], dflt);
    }
  }

  /** Before any label has matched. */
  lemma {:induction false} SeekOk(m: Machine, groups: seq<Group>, dflt: Option<Default>)
    requires !m.w.ended && m.stack == [] && !m.iftrue && !m.swTf && Once(m.swValue, groups, dflt)
    ensures Ends(m, Exec(m, Rest(groups, dflt)), EvalSwitch(m.w, m.swValue, groups, dflt, true))
    decreases |groups|
  {
    hide Exec, OfGroup, OfDefault, EvalBody;
    if groups == [] {
      NoGroups(m, dflt);
      DefaultOk(m, dflt);
    } else {
      NextGroup(m, groups, dflt);
      GroupOk(m, groups[0]);
      var n := Exec(m, OfGroup(groups[0]));
      if m.swValue in groups[0].labels {
        AfterGroup(n, groups, dflt);
      } else {
        SeekOk(n, groups[1..], dflt);
      }
    }
  }

  // ---------- statements and programs ----------

  /** No label occurs in two groups of the switch. */
  ghost predicate WellFormed(s: Statement) {
    s.Switch? ==> forall v :: Once(v, s.groups, s.dflt)
  }

  /** An action, a block of simple statements, another action. */
  function Run(m: Machine, body: seq<Simple>, next: Action): Machine {
    Step(Exec(m, OfBody(body)), next)
  }

  lemma RunIs(m: Machine, acts: seq<Action>, body: seq<Simple>, next: Action)
    ensures Exec(m, acts + OfBody(body) + [next]) == Run(Exec(m, acts), body, next)
  {
    hide Exec, Step, OfBody;
    ExecSnoc(m, acts + OfBody(body), next);
    ExecConcat(m, acts, OfBody(body));
  }

  lemma RunWorld(m: Machine, body: seq<Simple>, next: Action)
    requires !m.w.ended ==> m.stack == []
    ensures var w := if m.iftrue then EvalBody(m.w, body, true) else m.w;
            if m.w.ended then Run(m, body, next) == m
            else if w.ended then Run(m, body, next).w == w
            else exists k :: Run(m, body, next) == Step(m.(w := w, intstk := k), next)
  {
    hide Exec, EvalBody, OfBody;
    if m.w.ended {
      ExecExited(m, OfBody(body));
    } else {
      BodyOk(m, body);
      var n := Exec(m, OfBody(body));
      var w := if m.iftrue then EvalBody(m.w, body, true) else m.w;
      if !w.ended {
        assert n == m.(w := w, intstk := n.intstk);
      }
    }
  }

  lemma IfOk(m: Machine, s: Statement)
    requires s.If? && !m.w.ended && m.iftrue && m.stack == []
    ensures Ends(m, Exec(m, OfStatement(s)), EvalCoded(m.w, s))
  {
    hide Exec, EvalBody, OfBody;
    ExecOne(m, StartIf(s.id));
    var n := Step(m, StartIf(s.id));
    RunIs(m, [StartIf(s.id)], s.thn, StopIf);
    RunWorld(n, s.thn, StopIf);
  }

  /** A block, else, another block: the first runs if it is on, the second if nothing was. */
  lemma TwoBlocks(n: Machine, first: seq<Simple>, second: seq<Simple>)
    requires !n.w.ended ==> n.stack == [] && (n.iftrue ==> n.ifevertrue)
    ensures var w := if n.w.ended then n.w else if n.iftrue then EvalBody(n.w, first, true)
                     else if n.ifevertrue then n.w else EvalBody(n.w, second, true);
            Ends(n, Run(Run(n, first, StartElse), second, StopElse), w)
  {
    hide Exec, EvalBody, OfBody, Run, EvalSimple, GetInt, Lookup, ListValue, Push;
    RunWorld(n, first, StartElse);
    RunWorld(Run(n, first, StartElse), second, StopElse);
  }

  lemma IfElseOk(m: Machine, s: Statement)
    requires s.IfElse? && !m.w.ended && m.iftrue && m.stack == []
    ensures Ends(m, Exec(m, OfStatement(s)), EvalCoded(m.w, s))
  {
    hide Exec, EvalBody, OfBody, Run;
    ExecOne(m, StartIf(s.id));
    RunIs(m, [StartIf(s.id)], s.thn, StartElse);
    RunIs(m, [StartIf(s.id)] + OfBody(s.thn) + [StartElse], s.els, StopElse);
    TwoBlocks(Step(m, StartIf(s.id)), s.thn, s.els);
  }

  lemma IfElifElseOk(m: Machine, s: Statement)
    requires s.IfElifElse? && !m.w.ended && m.iftrue && m.stack == []
    ensures Ends(m, Exec(m, OfStatement(s)), EvalCoded(m.w, s))
  {
    hide Exec, EvalBody, OfBody, Stale, OfStatement, Run, GetInt, Lookup, Step;
    ElifChain(m, s);
    FirstBlock(m, s);
    TwoBlocks(Run(Step(m, StartIf(s.id)), s.thn, StartElif(Stale(s))), s.elif, s.els);
  }

  /** The state at the start of the else-if block. */
  lemma FirstBlock(m: Machine, s: Statement)
    requires s.IfElifElse? && !m.w.ended && m.stack == []
    ensures var n := Run(Step(m, StartIf(s.id)), s.thn, StartElif(Stale(s)));
            var first := GetInt(m.w.st, s.id) > 0;
            var val := Lookup(m.w.st, Stale(s));
            && n.w == (if first then EvalBody(m.w, s.thn, true) else if val.None? then Fault(m.w) else m.w)
            && (!n.w.ended ==>
                  && n.stack == [] && n.iftrue == (!first && val.Some? && val.value > 0)
                  && n.ifevertrue == (first || n.iftrue))
  {
    hide Exec, EvalBody, OfBody, Stale, Run, GetInt, Lookup, EvalSimple;
    RunWorld(Step(m, StartIf(s.id)), s.thn, StartElif(Stale(s)));
  }

  lemma ElifChain(m: Machine, s: Statement)
    requires s.IfElifElse?
    ensures Exec(m, OfStatement(s))
         == Run(Run(Run(Step(m, StartIf(s.id)), s.thn, StartElif(Stale(s))), s.elif, StartElse), s.els, StopElse)
  {
    hide Exec, Step, OfBody, Stale, Run;
    ExecOne(m, StartIf(s.id));
    RunIs(m, [StartIf(s.id)], s.thn, StartElif(Stale(s)));
    var acts := [StartIf(s.id)] + OfBody(s.thn) + [StartElif(Stale(s))];
    RunIs(m, acts, s.elif, StartElse);
    RunIs(m, acts + OfBody(s.elif) + [StartElse], s.els, StopElse);
  }

  lemma SwitchOk(m: Machine, s: Statement)
    requires s.Switch? && WellFormed(s) && !m.w.ended && m.iftrue && m.stack == []
    ensures Ends(m, Exec(m, OfStatement(s)), EvalCoded(m.w, s))
  {
    hide Exec, EvalSwitch, OfGroups, OfDefault, Once;
    var first := [StartSwitch(s.id)];
    assert OfStatement(s) == first + Rest(s.groups, s.dflt);
    ExecConcat(m, first, Rest(s.groups, s.dflt));
    ExecOne(m, StartSwitch(s.id));
    SeekOk(Step(m, StartSwitch(s.id)), s.groups, s.dflt);
  }

  lemma StatementOk(m: Machine, s: Statement)
    requires WellFormed(s) && !m.w.ended && m.iftrue && m.stack == []
    ensures Ends(m, Exec(m, OfStatement(s)), EvalCoded(m.w, s))
  {
    match s
    case Plain(p) => SimpleOk(m, p);
    case If(_, _) => IfOk(m, s);
    case IfElse(_, _, _) => IfElseOk(m, s);
    case IfElifElse(_, _, _, _, _) => IfElifElseOk(m, s);
    case Switch(_, _, _) => SwitchOk(m, s);
  }

  /** The machine's effect on the world is that of the structured evaluator, for every program
      without repeated labels. */
  lemma {:induction false} ProgramOk(m: Machine, prog: seq<Statement>)
    requires (forall i :: 0 <= i < |prog| ==> WellFormed(prog[i]))
    requires !m.w.ended ==> m.iftrue && m.stack == []
    ensures Exec(m, OfProgram(prog)).w == EvalCodedProgram(m.w, prog)
    decreases |prog|
  {
    hide Step, EvalCoded, OfStatement, WellFormed;
    if prog != [] {
      var first := OfStatement(prog[0]);
      ExecConcat(m, first, OfProgram(prog[1..]));
      var n := Exec(m, first);
      if m.w.ended {
        ExecExited(m, first);
        EndedStays(m.w, prog);
        EndedStays(m.w, prog[1..]);
      } else {
        StatementOk(m, prog[0]);
      }
      assert forall i :: 0 <= i < |prog[1..]| ==> prog[1..][i] == prog[i + 1];
      ProgramOk(n, prog[1..]);
    }
  }

  /** Where every else-if agrees with the variable it names and no empty string is printed, the
      machine does what the language is meant to say. */
  lemma ProgramMeant(m: Machine, prog: seq<Statement>)
    requires (forall i :: 0 <= i < |prog| ==> WellFormed(prog[i])) && m.iftrue && m.stack == []
    requires !m.w.faulted && ElifsAgree(m.w, prog) && !EverPrintsEmpty(m.w, prog)
    ensures Exec(m, OfProgram(prog)).w == EvalProgram(m.w, prog) && !EvalProgram(m.w, prog).faulted
  {
    ProgramOk(m, prog);
    CodedIsMeant(m.w, prog);
  }

  /** A list in a branch that is not taken leaves the store and the stack alone. */
  lemma SkippedList(m: Machine, s: Simple)
    requires (s.SetInts? || s.SetStrs?) && !m.iftrue && m.stack == []
    ensures Exec(m, OfSimple(s)).w == m.w
    ensures !m.w.ended ==> Exec(m, OfSimple(s)).stack == []
  {
    SimpleOk(m, s);
  }
}
