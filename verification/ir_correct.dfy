/**
 Compiler correctness: running the emitted graph from its entry block ends with exactly
 the verdict and the state that the meaning of the ruleset prescribes.
 */
module IrCorrect {
  import opened Text
  import opened Ast
  import opened Lowering
  import opened Message
  import opened Runtime
  import opened RuntimeCalls
  import opened Semantics
  import opened Fragments
  import opened BlockGraph
  import opened IrEmission
  import Uri

  /** The final graph contains everything emitted so far. */
  predicate Within(part: Graph, g: Graph) {
    |part| <= |g| && forall b :: 0 <= b < |part| ==> part[b] <= g[b]
  }

  lemma {:induction false} WithinFollows(e: Builder, f: Builder, g: Graph)
    requires Follows(e, f) && Within(f.graph, g)
    ensures Within(e.graph, g)
  {
  }

  /** Where execution stands when everything emitted into the insertion block has run. */
  function Here(e: Builder, regs: Regs): Config
    requires e.Valid()
  {
    At(e.cur, |e.graph[e.cur]|, regs)
  }

  lemma {:induction false} AppendRuns(e: Builder, code: seq<Instr>, g: Graph, regs: Regs)
    requires e.Valid() && Within(Append(e, code).graph, g)
    requires RunInstrs(code, Some(regs)).Some?
    ensures Reaches(g, Here(e, regs), Here(Append(e, code), RunInstrs(code, Some(regs)).value))
  {
    hide RunInstrs, Reaches;
    var block := Append(e, code).graph[e.cur];
    assert block == e.graph[e.cur] + code;
    assert block <= g[e.cur];
    assert g[e.cur][|e.graph[e.cur]|..|e.graph[e.cur]| + |code|] == code;
    RunsThrough(g, e.cur, |e.graph[e.cur]|, code, regs);
  }

  lemma {:induction false} CallsRun(e: Builder, calls: seq<Call>, g: Graph, regs: Regs)
    requires e.Valid() && Within(Append(e, Lift(calls)).graph, g)
    requires RunCalls(calls, Some(regs.m)).Some?
    ensures Reaches(g, Here(e, regs), Here(Append(e, Lift(calls)), regs.(m := RunCalls(calls, Some(regs.m)).value)))
  {
    hide RunInstrs, RunCalls, Reaches, Append, Within;
    RunLift(calls, regs);
    AppendRuns(e, Lift(calls), g, regs);
  }

  lemma {:induction false} GuardedRuns(e: Builder, bit: nat, skip: nat, g: Graph, regs: Regs)
    requires e.Valid() && Within(Guarded(e, bit, skip).graph, g) && bit in regs.bits
    ensures Reaches(g, Here(e, regs), if regs.bits[bit] then Here(Guarded(e, bit, skip), regs) else At(skip, 0, regs))
  {
    hide Reaches;
    var f := Guarded(e, bit, skip);
    GuardedFollows(e, bit, skip);
    assert f.graph[e.cur] <= g[e.cur];
    assert g[e.cur][|e.graph[e.cur]|] == CondBr(bit, |e.graph|, skip);
    ReachesStep(g, Here(e, regs), At(if regs.bits[bit] then |e.graph| else skip, 0, regs));
  }

  lemma {:induction false} BrRuns(e: Builder, target: nat, g: Graph, regs: Regs)
    requires e.Valid() && Within(Append(e, [Br(target)]).graph, g)
    ensures Reaches(g, Here(e, regs), At(target, 0, regs))
  {
    hide Reaches;
    assert Append(e, [Br(target)]).graph[e.cur] <= g[e.cur];
    assert g[e.cur][|e.graph[e.cur]|] == Br(target);
    ReachesStep(g, Here(e, regs), At(target, 0, regs));
  }

  lemma {:induction false} JumpRuns(e: Builder, g: Graph, regs: Regs)
    requires e.Valid() && Within(JumpToReject(e).graph, g)
    ensures JumpToReject(e).reject.Some? && Reaches(g, Here(e, regs), At(JumpToReject(e).reject.value, 0, regs))
  {
    hide Reaches;
    var w := WithReject(e);
    assert Here(w, regs) == Here(e, regs);
    BrRuns(w, w.reject.value, g, regs);
  }

  // ---- tests ---------------------------------------------------------------

  /** The registers after a call was tested against zero. */
  function AfterTest(regs: Regs, r: nat, tested: (State, bool), negated: bool): Regs {
    var bits := regs.bits[r + 1 := tested.1];
    Regs(Machine(regs.m.env, tested.0), regs.words[r := if tested.1 then 1 else 0],
         if negated then bits[r + 2 := !tested.1] else bits)
  }

  lemma {:induction false} TestCodeRuns(r: nat, test: Test, negated: bool, regs: Regs)
    requires RunTest(test, regs.m).Some?
    ensures RunInstrs(TestCode(r, test, negated), Some(regs)) ==
            Some(AfterTest(regs, r, RunTest(test, regs.m).value, negated))
  {
    hide RunTest, RunInstrs;
    var tested := RunTest(test, regs.m).value;
    var one := Regs(Machine(regs.m.env, tested.0), regs.words[r := if tested.1 then 1 else 0], regs.bits);
    var two := one.(bits := one.bits[r + 1 := tested.1]);
    RunInstrsOne(Check(r, test), Some(regs));
    RunInstrsOne(NotZero(r + 1, r), Some(one));
    RunInstrsAppend([Check(r, test)], [NotZero(r + 1, r)], Some(regs));
    assert [Check(r, test)] + [NotZero(r + 1, r)] == [Check(r, test), NotZero(r + 1, r)];
    if negated {
      RunInstrsOne(Not(r + 2, r + 1), Some(two));
      RunInstrsAppend([Check(r, test), NotZero(r + 1, r)], [Not(r + 2, r + 1)], Some(regs));
    } else {
      assert TestCode(r, test, negated) == [Check(r, test), NotZero(r + 1, r)];
    }
  }

  lemma {:induction false} TestRuns(e: Builder, test: Test, negated: bool, skip: nat, g: Graph, regs: Regs)
    requires e.Valid() && Within(EmitTest(e, test, negated, skip).graph, g)
    requires RunTest(test, regs.m).Some?
    ensures
      var after := AfterTest(regs, e.next, RunTest(test, regs.m).value, negated);
      Reaches(g, Here(e, regs),
              if RunTest(test, regs.m).value.1 != negated then Here(EmitTest(e, test, negated, skip), after)
              else At(skip, 0, after))
  {
    hide RunTest, Reaches, RunInstrs, Within, Append, Guarded, Here;
    var code := TestCode(e.next, test, negated);
    var a := Append(e, code);
    var after := AfterTest(regs, e.next, RunTest(test, regs.m).value, negated);
    TestCodeRuns(e.next, test, negated, regs);
    AppendFollows(e, code);
    GuardedFollows(a, TestBit(e.next, negated), skip);
    WithinFollows(a, EmitTest(e, test, negated, skip), g);
    AppendRuns(e, code, g, regs);
    GuardedRuns(a, TestBit(e.next, negated), skip, g, after);
    ReachesTrans(g, Here(e, regs), Here(a, after),
                 if RunTest(test, regs.m).value.1 != negated then Here(EmitTest(e, test, negated, skip), after)
                 else At(skip, 0, after));
  }

  // ---- guards --------------------------------------------------------------

  /** Execution goes on after a guard when it passes, and in the skip block when it does not. */
  ghost predicate Branches(g: Graph, c: Config, pass: bool, f: Builder, skip: nat, regs: Regs)
    requires f.Valid()
  {
    Reaches(g, c, if pass then Here(f, regs) else At(skip, 0, regs))
  }

  lemma {:induction false} BranchesAfter(g: Graph, c: Config, d: Config, pass: bool, f: Builder, skip: nat, regs: Regs)
    requires f.Valid() && Reaches(g, c, d) && Branches(g, d, pass, f, skip, regs)
    ensures Branches(g, c, pass, f, skip, regs)
  {
    hide Reaches;
    ReachesTrans(g, c, d, if pass then Here(f, regs) else At(skip, 0, regs));
  }

  lemma {:induction false} MatchRuns(
    t: Tables, e: Builder, cmp: ComparisonType, mvt: MatchValType, mv: Value, subject: Operand, text: string, skip: nat,
    g: Graph, regs: Regs) returns (after: Regs)
    requires e.Valid() && Within(EmitMatch(t, e, cmp, mvt, mv, subject, skip).graph, g)
    requires TextOf(subject, regs.m.env) == Some(text)
    ensures
      var guard := Guard(t, cmp, mvt, mv, text, regs.m.state.ctx);
      after.m == Machine(regs.m.env, OnContext(regs.m.state, guard.0)) &&
      Branches(g, Here(e, regs), guard.1, EmitMatch(t, e, cmp, mvt, mv, subject, skip), skip, after)
  {
    hide RtMatch, Reaches, Within, EmitTest, Here, RegexOf, MatchTypeOf;
    if !Semantics.Tested(mv) {
      after := regs;
      ReachesSelf(g, Here(e, regs));
    } else {
      var test := MatchTest(MatchTypeOf(cmp, mvt, mv.PatternText()), subject, mv.PatternText(), PatternId(t, cmp, mv));
      after := AfterTest(regs, e.next, RunTest(test, regs.m).value, mv.negated);
      TestRuns(e, test, mv.negated, skip, g, regs);
    }
  }

  lemma {:induction false} TypeRuns(e: Builder, hr: HeaderRule, skip: nat, g: Graph, regs: Regs) returns (after: Regs)
    requires e.Valid() && Within(EmitType(e, hr, skip).graph, g)
    ensures after.m == regs.m
    ensures Branches(g, Here(e, regs), TypePasses(hr, regs.m.state.msg), EmitType(e, hr, skip), skip, after)
  {
    hide Reaches, Within, EmitTest, Here;
    if hr.msgType.Request? || hr.msgType.Reply? {
      after := AfterTest(regs, e.next, RunTest(IsRequestTest, regs.m).value, hr.msgType.Reply?);
      TestRuns(e, IsRequestTest, hr.msgType.Reply?, skip, g, regs);
    } else {
      after := regs;
      ReachesSelf(g, Here(e, regs));
    }
  }

  predicate AnyMethod(verb: string, methods: seq<string>, n: nat)
    requires n <= |methods|
  {
    n > 0 && (AnyMethod(verb, methods, n - 1) || IEquals(verb, methods[n - 1]))
  }

  lemma {:induction false} AnyMethodExists(verb: string, methods: seq<string>, n: nat)
    requires n <= |methods|
    ensures AnyMethod(verb, methods, n) <==> exists k :: 0 <= k < n && IEquals(verb, methods[k])
  {
    hide IEquals;
    if n > 0 {
      AnyMethodExists(verb, methods, n - 1);
    }
  }

  /** The disjunction register after `n` methods holds whether one of them matched. */
  predicate Accumulated(regs: Regs, r: nat, verb: string, methods: seq<string>, n: nat)
    requires n <= |methods|
  {
    BitOf(MethodAcc(r, n), regs.bits) == Some(AnyMethod(verb, methods, n))
  }

  lemma {:induction false} MethodStep(r: nat, verb: string, methods: seq<string>, k: nat, regs: Regs) returns (after: Regs)
    requires k < |methods| && r in regs.m.env && regs.m.env[r] == verb && Accumulated(regs, r, verb, methods, k)
    ensures RunInstrs(MethodCode(r, methods, k), Some(regs)) == Some(after)
    ensures after.m == regs.m && Accumulated(after, r, verb, methods, k + 1)
  {
    hide IEquals, RunInstrs;
    var x := r + 1 + 3 * k;
    var test := StrEqTest(Use(r), methods[k]);
    var eq := IEquals(verb, methods[k]);
    var one := Regs(regs.m, regs.words[x := if eq then 1 else 0], regs.bits);
    var two := one.(bits := one.bits[x + 1 := eq]);
    after := two.(bits := two.bits[x + 2 := AnyMethod(verb, methods, k) || eq]);
    var a, b, c := Check(x, test), NotZero(x + 1, x), Or(x + 2, MethodAcc(r, k), x + 1);
    RunInstrsOne(a, Some(regs));
    RunInstrsOne(b, Some(one));
    RunInstrsOne(c, Some(two));
    RunInstrsAppend([a], [b], Some(regs));
    RunInstrsAppend([a] + [b], [c], Some(regs));
    assert MethodCode(r, methods, k) == [a] + [b] + [c];
  }

  lemma {:induction false} MethodsCodeRuns(r: nat, verb: string, methods: seq<string>, n: nat, regs: Regs) returns (after: Regs)
    requires n <= |methods| && r in regs.m.env && regs.m.env[r] == verb
    ensures RunInstrs(MethodsCode(r, methods, n), Some(regs)) == Some(after)
    ensures after.m == regs.m && Accumulated(after, r, verb, methods, n)
  {
    hide Accumulated, ExecInstr, MethodCode;
    if n == 0 {
      after := regs;
      assert Accumulated(after, r, verb, methods, n) by { NoneAccumulated(regs, r, verb, methods); }
    } else {
      var mid := MethodsCodeRuns(r, verb, methods, n - 1, regs);
      after := MethodStep(r, verb, methods, n - 1, mid);
      RunInstrsAppend(MethodsCode(r, methods, n - 1), MethodCode(r, methods, n - 1), Some(regs));
    }
  }

  lemma {:induction false} NoneAccumulated(regs: Regs, r: nat, verb: string, methods: seq<string>)
    ensures Accumulated(regs, r, verb, methods, 0)
  {
  }

  lemma {:induction false} MethodsRun(e: Builder, hr: HeaderRule, skip: nat, g: Graph, regs: Regs) returns (after: Regs)
    requires e.Valid() && Within(EmitMethods(e, hr, skip).graph, g)
    ensures after.m.state == regs.m.state
    ensures Branches(g, Here(e, regs), MethodPasses(hr, regs.m.state.msg), EmitMethods(e, hr, skip), skip, after)
  {
    hide Reaches, Within, Here, Append, Guarded, RunInstrs, MethodsCode, IEquals, AnyMethod;
    if !hr.HasMethodFilter() {
      after := regs;
      ReachesSelf(g, Here(e, regs));
    } else {
      var r, n, verb := e.next, |hr.methods|, regs.m.state.msg.start.verb;
      var code := [Run(Ask(r, QMethod))] + MethodsCode(r, hr.methods, n);
      var asked := regs.(m := Machine(regs.m.env[r := verb], regs.m.state));
      after := MethodsCodeRuns(r, verb, hr.methods, n, asked);
      RunInstrsOne(Run(Ask(r, QMethod)), Some(regs));
      RunInstrsAppend([Run(Ask(r, QMethod))], MethodsCode(r, hr.methods, n), Some(regs));
      AppendFollows(e, code);
      GuardedFollows(Append(e, code), r + 3 * n, skip);
      WithinFollows(Append(e, code), EmitMethods(e, hr, skip), g);
      AppendRuns(e, code, g, regs);
      AnyMethodExists(verb, hr.methods, n);
      GuardedRuns(Append(e, code), r + 3 * n, skip, g, after);
      BranchesAfter(g, Here(e, regs), Here(Append(e, code), after), MethodPasses(hr, regs.m.state.msg),
                    EmitMethods(e, hr, skip), skip, after);
    }
  }

  lemma {:induction false} FiltersRun(e: Builder, hr: HeaderRule, skip: nat, g: Graph, regs: Regs) returns (after: Regs)
    requires e.Valid() && Within(EmitFilters(e, hr, skip).graph, g)
    ensures after.m.state == regs.m.state
    ensures Branches(g, Here(e, regs), TypePasses(hr, regs.m.state.msg) && MethodPasses(hr, regs.m.state.msg),
                     EmitFilters(e, hr, skip), skip, after)
  {
    hide Reaches, Within, Here, EmitMethods, EmitType, TypePasses, MethodPasses, Follows;
    FiltersFollow(e, hr, skip);
    MethodsFollow(EmitType(e, hr, skip), hr, skip);
    WithinFollows(EmitType(e, hr, skip), EmitFilters(e, hr, skip), g);
    after := TypeRuns(e, hr, skip, g, regs);
    if TypePasses(hr, regs.m.state.msg) {
      var mid := after;
      after := MethodsRun(EmitType(e, hr, skip), hr, skip, g, mid);
      BranchesAfter(g, Here(e, regs), Here(EmitType(e, hr, skip), mid), MethodPasses(hr, regs.m.state.msg),
                    EmitFilters(e, hr, skip), skip, after);
    }
  }

  // ---- rules ---------------------------------------------------------------

  /** An outcome reached in the graph: on in block `cont`, or in the reject block. */
  ghost predicate Lands(g: Graph, c: Config, o: Outcome, cont: nat, reject: Option<nat>, regs: Regs) {
    regs.m.state == o.state &&
    if o.flow.Continue? then Reaches(g, c, At(cont, 0, regs))
    else reject.Some? && Reaches(g, c, At(reject.value, 0, regs))
  }

  lemma {:induction false} LandsAfter(g: Graph, c: Config, d: Config, o: Outcome, cont: nat, reject: Option<nat>, regs: Regs)
    requires Reaches(g, c, d) && Lands(g, d, o, cont, reject, regs)
    ensures Lands(g, c, o, cont, reject, regs)
  {
    hide Reaches;
    if o.flow.Continue? {
      ReachesTrans(g, c, d, At(cont, 0, regs));
    } else {
      ReachesTrans(g, c, d, At(reject.value, 0, regs));
    }
  }

  lemma {:induction false} HeaderGuardRuns(t: Tables, e: Builder, hr: HeaderRule, cont: nat, g: Graph, regs: Regs)
    returns (after: Regs)
    requires e.Valid() && Within(EmitHeaderGuard(t, e, hr, cont).graph, g)
    ensures
      var hv := GetHeader(regs.m.state.msg, hr.headerName);
      var guard := Guard(t, hr.comparison, AnyValue, hr.matchValue, hv, regs.m.state.ctx);
      && after.m.state == OnContext(regs.m.state, guard.0)
      && (NeedsHeader(hr) ==> TextOf(Use(e.next), after.m.env) == Some(hv))
      && Branches(g, Here(e, regs), guard.1, EmitHeaderGuard(t, e, hr, cont), cont, after)
  {
    hide Reaches, Within, Here, Append, EmitMatch, Follows, Guard, RunInstrs, Branches;
    var f := EmitFetch(e, hr);
    var hv := GetHeader(regs.m.state.msg, hr.headerName);
    HeaderGuardFollows(t, e, hr, cont);
    MatchFollows(t, f, hr.comparison, AnyValue, hr.matchValue, Subject(hr, e.next), cont);
    WithinFollows(f, EmitHeaderGuard(t, e, hr, cont), g);
    if NeedsHeader(hr) {
      var ask := Run(Ask(e.next, QHeader(Lit(hr.headerName))));
      var fetched := regs.(m := Machine(regs.m.env[e.next := hv], regs.m.state));
      RunInstrsOne(ask, Some(regs));
      AppendRuns(e, [ask], g, regs);
      after := MatchRuns(t, f, hr.comparison, AnyValue, hr.matchValue, Use(e.next), hv, cont, g, fetched);
      BranchesAfter(g, Here(e, regs), Here(f, fetched), Guard(t, hr.comparison, AnyValue, hr.matchValue, hv, regs.m.state.ctx).1,
                    EmitHeaderGuard(t, e, hr, cont), cont, after);
    } else {
      UntestedGuard(t, hr, hv, "", regs.m.state.ctx);
      after := MatchRuns(t, f, hr.comparison, AnyValue, hr.matchValue, Lit(""), "", cont, g, regs);
    }
  }

  /** The element's action and the way out of the block it is in. */
  lemma {:induction false} ElementActRuns(
    t: Tables, e: Builder, hr: HeaderRule, er: ElementRule, elem: nat, r: nat, hv: string, ev: string, cont: nat,
    g: Graph, regs: Regs) returns (after: Regs)
    requires e.Valid() && ReadTemp(r, elem) < e.next
    requires TextOf(Use(r), regs.m.env) == Some(hv) && TextOf(Use(ReadTemp(r, elem)), regs.m.env) == Some(ev)
    requires Within(ElementTail(t, e, hr, er, elem, r, cont).graph, g)
    ensures Lands(g, Here(e, regs), ElementAct(t, hr, er, elem, hv, ev, regs.m.state), cont,
                  ElementTail(t, e, hr, er, elem, r, cont).reject, after)
  {
    hide Reaches, Within, Here, Append, Follows, JumpToReject, ElementCode, ElementAct, RunCalls;
    var code := ElementCode(t, e.next, hr, er, Lit(hr.headerName), elem, Use(r), Use(ReadTemp(r, elem)));
    var a := Append(e, Lift(code));
    var f := ElementTail(t, e, hr, er, elem, r, cont);
    AppendFollows(a, [Br(cont)]);
    JumpFollows(a);
    WithinFollows(a, f, g);
    ElementRuns(t, e.next, hr, er, Lit(hr.headerName), elem, Use(r), Use(ReadTemp(r, elem)), hv, ev, regs.m);
    ElementActFlow(t, hr, er, elem, hv, ev, regs.m.state);
    after := regs.(m := RunCalls(code, Some(regs.m)).value);
    CallsRun(e, code, g, regs);
    if er.action.RejectElement? {
      JumpRuns(a, g, after);
    } else {
      BrRuns(a, cont, g, after);
    }
    LandsAfter(g, Here(e, regs), Here(a, after), ElementAct(t, hr, er, elem, hv, ev, regs.m.state), cont, f.reject, after);
  }

  lemma {:induction false} ElementMeets(t: Tables, e: Builder, hr: HeaderRule, er: ElementRule, g: Graph, regs: Regs)
    returns (after: Regs)
    requires e.Valid() && UriElement(er.kind).Some? && Within(EmitElement(t, e, hr, er).graph, g)
    ensures Lands(g, Here(e, regs), ElementMeaning(t, hr, er, regs.m.state), |e.graph|,
                  EmitElement(t, e, hr, er).reject, after)
  {
    hide Reaches, Within, Here, Append, NewBlock, Follows, Guard, ElementAct, RunInstrs, EmitMatch, ElementTail, ReadCalls, RunCalls;
    hide Uri.Component, Resume;
    var elem, cont, b := UriElement(er.kind).value, |e.graph|, NewBlock(e, e.Known());
    var calls := ReadCalls(e.next, Lit(hr.headerName), elem);
    var n := Append(b, Lift(calls));
    var subject := Use(ReadTemp(e.next, elem));
    var m := EmitMatch(t, n, er.comparison, er.matchValType, er.matchValue, subject, cont);
    var body := EmitElementBody(t, n, hr, er, elem, e.next, cont);
    ElementShape(t, e, hr, er);
    WithinFollows(m, body, g);
    WithinFollows(n, m, g);
    HereNew(e, regs);
    var hv := GetHeader(regs.m.state.msg, hr.headerName);
    var ev := Uri.Component(hv, elem);
    var machine := ReadCallsRun(e.next, Lit(hr.headerName), hr.headerName, elem, regs.m);
    var read := regs.(m := machine);
    CallsRun(b, calls, g, regs);
    var tested := MatchRuns(t, n, er.comparison, er.matchValType, er.matchValue, subject, ev, cont, g, read);
    var guard := Guard(t, er.comparison, er.matchValType, er.matchValue, ev, regs.m.state.ctx);
    if guard.1 {
      after := ElementActRuns(t, m, hr, er, elem, e.next, hv, ev, cont, g, tested);
      LandsAfter(g, Here(n, read), Here(m, tested), ElementMeaning(t, hr, er, regs.m.state), cont, body.reject, after);
    } else {
      after := tested;
    }
    LandsAfter(g, Here(e, regs), Here(n, read), ElementMeaning(t, hr, er, regs.m.state), cont, body.reject, after);
  }

  lemma {:induction false} HereNew(e: Builder, regs: Regs)
    requires e.Valid()
    ensures Here(NewBlock(e, e.Known()), regs) == Here(e, regs)
  {
  }

  /** The builders an element rule goes through, each continuing the one before. */
  lemma {:induction false} ElementShape(t: Tables, e: Builder, hr: HeaderRule, er: ElementRule)
    requires e.Valid() && UriElement(er.kind).Some?
    ensures
      var elem := UriElement(er.kind).value;
      var n := Append(NewBlock(e, e.Known()), Lift(ReadCalls(e.next, Lit(hr.headerName), elem)));
      var m := EmitMatch(t, n, er.comparison, er.matchValType, er.matchValue, Use(ReadTemp(e.next, elem)), |e.graph|);
      var body := EmitElementBody(t, n, hr, er, elem, e.next, |e.graph|);
      && body == ElementTail(t, m, hr, er, elem, e.next, |e.graph|)
      && Follows(n, m) && Follows(m, body)
      && EmitElement(t, e, hr, er).graph == body.graph && EmitElement(t, e, hr, er).reject == body.reject
      && EmitElement(t, e, hr, er).cur == |e.graph| && body.graph[|e.graph|] == []
      && ReadTemp(e.next, elem) < m.next
  {
    hide Follows, EmitMatch, Resume, ElementTail, NewBlock;
    var elem := UriElement(er.kind).value;
    var b := NewBlock(e, e.Known());
    var n := Append(b, Lift(ReadCalls(e.next, Lit(hr.headerName), elem)));
    var m := EmitMatch(t, n, er.comparison, er.matchValType, er.matchValue, Use(ReadTemp(e.next, elem)), |e.graph|);
    var body := EmitElementBody(t, n, hr, er, elem, e.next, |e.graph|);
    NewBlockFollows(e, e.Known());
    AppendFollows(b, Lift(ReadCalls(e.next, Lit(hr.headerName), elem)));
    MatchFollows(t, n, er.comparison, er.matchValType, er.matchValue, Use(ReadTemp(e.next, elem)), |e.graph|);
    ElementTailFollows(t, m, hr, er, elem, e.next, |e.graph|);
    FollowsTrans(n, m, body);
    CurInside(e);
    ResumeFollows(e, n, body);
    ReadNumbered(e.next, Lit(hr.headerName), elem, {});
    LiftedValues(ReadCalls(e.next, Lit(hr.headerName), elem));
    FollowsNext(n, m);
    NewNext(e);
  }

  lemma {:induction false} FollowsNext(e: Builder, f: Builder)
    requires Follows(e, f)
    ensures e.next <= f.next
  {
  }

  lemma {:induction false} NewNext(e: Builder)
    requires e.Valid()
    ensures NewBlock(e, e.Known()).next == e.next
  {
  }

  /** As `Lands`, with execution going on where builder `f` would emit next. */
  ghost predicate Meets(g: Graph, c: Config, o: Outcome, f: Builder, regs: Regs)
    requires f.Valid()
  {
    regs.m.state == o.state &&
    if o.flow.Continue? then Reaches(g, c, Here(f, regs))
    else f.reject.Some? && Reaches(g, c, At(f.reject.value, 0, regs))
  }

  lemma {:induction false} MeetsAfter(g: Graph, c: Config, d: Config, o: Outcome, f: Builder, regs: Regs)
    requires f.Valid() && Reaches(g, c, d) && Meets(g, d, o, f, regs)
    ensures Meets(g, c, o, f, regs)
  {
    hide Reaches, Here;
    if o.flow.Continue? {
      ReachesTrans(g, c, d, Here(f, regs));
    } else {
      ReachesTrans(g, c, d, At(f.reject.value, 0, regs));
    }
  }

  lemma {:induction false} ElementEmitted(t: Tables, e: Builder, hr: HeaderRule, er: ElementRule, g: Graph, regs: Regs)
    returns (after: Regs)
    requires e.Valid() && Within(EmitElement(t, e, hr, er).graph, g)
    ensures Meets(g, Here(e, regs), ElementMeaning(t, hr, er, regs.m.state), EmitElement(t, e, hr, er), after)
  {
    hide Reaches, Within, EmitElementBody, ElementAct, Guard, Uri.Component, GetHeader, Append, NewBlock, Resume, ReadCalls;
    if UriElement(er.kind).None? {
      after := regs;
      ReachesSelf(g, Here(e, regs));
    } else {
      hide ElementMeaning, EmitElement;
      ElementShape(t, e, hr, er);
      after := ElementMeets(t, e, hr, er, g, regs);
    }
  }

  lemma {:induction false} ElementsMeet(t: Tables, e: Builder, hr: HeaderRule, n: nat, g: Graph, regs: Regs)
    returns (after: Regs)
    requires e.Valid() && n <= |hr.elementRules| && Within(EmitElements(t, e, hr, n).graph, g)
    ensures Meets(g, Here(e, regs), Elements(t, hr, n, regs.m.state), EmitElements(t, e, hr, n), after)
  {
    hide Reaches, Within, EmitElement, ElementMeaning, Here, Follows;
    if n == 0 {
      after := regs;
      ReachesSelf(g, Here(e, regs));
    } else {
      var f, h := EmitElements(t, e, hr, n - 1), EmitElements(t, e, hr, n);
      ElementFollows(t, f, hr, hr.elementRules[n - 1]);
      WithinFollows(f, h, g);
      KeepsReject(f, h);
      after := ElementsMeet(t, e, hr, n - 1, g, regs);
      if Elements(t, hr, n - 1, regs.m.state).flow.Continue? {
        var mid := after;
        after := ElementEmitted(t, f, hr, hr.elementRules[n - 1], g, mid);
        MeetsAfter(g, Here(e, regs), Here(f, mid), Elements(t, hr, n, regs.m.state), h, after);
      }
    }
  }

  lemma {:induction false} KeepsReject(e: Builder, f: Builder)
    requires Follows(e, f)
    ensures e.reject.Some? ==> f.reject == e.reject
  {
  }

  /** A rule past its guards: header action, element rules, and the way out. */
  lemma {:induction false} ActedRuns(
    t: Tables, e: Builder, hr: HeaderRule, idx: nat, r: nat, cont: nat, g: Graph, regs: Regs) returns (after: Regs)
    requires e.Valid() && Within(EmitActed(t, e, hr, idx, r, cont).graph, g)
    requires NeedsHeader(hr) ==> TextOf(Use(r), regs.m.env) == Some(GetHeader(regs.m.state.msg, hr.headerName))
    ensures Lands(g, Here(e, regs), Acted(t, hr, idx, regs.m.state), cont, EmitActed(t, e, hr, idx, r, cont).reject, after)
  {
    hide Reaches, Within, Here, Append, Follows, JumpToReject, HeaderCode, HeaderAct, RunCalls, EmitElements, Elements;
    var code := HeaderCode(t, e.next, hr, idx, Lit(hr.headerName), Fetched(hr, r));
    var a := Append(e, Lift(code));
    var els := EmitElements(t, a, hr, |hr.elementRules|);
    var f := EmitActed(t, e, hr, idx, r, cont);
    JumpFollows(a);
    ElementsFollow(t, a, hr, |hr.elementRules|);
    AppendFollows(els, [Br(cont)]);
    HeaderRuns(t, e.next, hr, idx, Lit(hr.headerName), Fetched(hr, r), regs.m);
    HeaderActFlow(t, hr, idx, regs.m.state);
    var acted := regs.(m := RunCalls(code, Some(regs.m)).value);
    if hr.action.RejectHeader? {
      WithinFollows(a, f, g);
      JumpRuns(a, g, acted);
      after := acted;
    } else {
      WithinFollows(els, f, g);
      WithinFollows(a, els, g);
      after := ElementsMeet(t, a, hr, |hr.elementRules|, g, acted);
      if Elements(t, hr, |hr.elementRules|, acted.m.state).flow.Continue? {
        BrRuns(els, cont, g, after);
        ReachesTrans(g, Here(a, acted), Here(els, after), At(cont, 0, after));
      }
    }
    CallsRun(e, code, g, regs);
    LandsAfter(g, Here(e, regs), Here(a, acted), Acted(t, hr, idx, regs.m.state), cont, f.reject, after);
  }

  /** The builders a header rule goes through, each continuing the one before. */
  lemma {:induction false} RuleShape(t: Tables, e: Builder, hr: HeaderRule, idx: nat)
    requires e.Valid()
    ensures
      var b := NewBlock(e, e.Known());
      var f := EmitFilters(b, hr, |e.graph|);
      var h := EmitHeaderGuard(t, f, hr, |e.graph|);
      var a := EmitActed(t, h, hr, idx, f.next, |e.graph|);
      Follows(f, h) && Follows(h, a) && EmitRule(t, e, hr, idx).graph == a.graph &&
      EmitRule(t, e, hr, idx).reject == a.reject && EmitRule(t, e, hr, idx).cur == |e.graph| && a.graph[|e.graph|] == []
  {
    hide Follows, EmitFilters, EmitHeaderGuard, EmitActed, NewBlock, Resume;
    var b := NewBlock(e, e.Known());
    var f := EmitFilters(b, hr, |e.graph|);
    var h := EmitHeaderGuard(t, f, hr, |e.graph|);
    NewBlockFollows(e, e.Known());
    FollowsSelf(b);
    FiltersFollow(b, hr, |e.graph|);
    HeaderGuardFollows(t, f, hr, |e.graph|);
    ActedFollows(t, h, hr, idx, f.next, |e.graph|);
    FollowsTrans(b, f, h);
    FollowsTrans(b, h, EmitActed(t, h, hr, idx, f.next, |e.graph|));
    CurInside(e);
    ResumeFollows(e, b, EmitActed(t, h, hr, idx, f.next, |e.graph|));
  }

  lemma {:induction false} RuleMeets(t: Tables, e: Builder, hr: HeaderRule, idx: nat, g: Graph, regs: Regs)
    returns (after: Regs)
    requires e.Valid() && Within(EmitRule(t, e, hr, idx).graph, g)
    ensures Lands(g, Here(e, regs), RuleMeaning(t, hr, idx, regs.m.state), |e.graph|, EmitRule(t, e, hr, idx).reject, after)
  {
    hide Reaches, Within, Here, NewBlock, Follows, Guard, Acted, EmitFilters, EmitHeaderGuard, EmitActed, Resume, GetHeader;
    hide TypePasses, MethodPasses;
    var b, cont := NewBlock(e, e.Known()), |e.graph|;
    var f := EmitFilters(b, hr, cont);
    var h := EmitHeaderGuard(t, f, hr, cont);
    var a := EmitActed(t, h, hr, idx, f.next, cont);
    var o := RuleMeaning(t, hr, idx, regs.m.state);
    RuleShape(t, e, hr, idx);
    WithinFollows(h, a, g);
    WithinFollows(f, h, g);
    HereNew(e, regs);
    var filtered := FiltersRun(b, hr, cont, g, regs);
    after := filtered;
    if TypePasses(hr, regs.m.state.msg) && MethodPasses(hr, regs.m.state.msg) {
      after := HeaderGuardRuns(t, f, hr, cont, g, filtered);
      var hv := GetHeader(regs.m.state.msg, hr.headerName);
      if Guard(t, hr.comparison, AnyValue, hr.matchValue, hv, regs.m.state.ctx).1 {
        var guarded := after;
        after := ActedRuns(t, h, hr, idx, f.next, cont, g, guarded);
        LandsAfter(g, Here(f, filtered), Here(h, guarded), o, cont, a.reject, after);
      }
      LandsAfter(g, Here(e, regs), Here(f, filtered), o, cont, a.reject, after);
    }
  }

  lemma {:induction false} RuleEmitted(t: Tables, e: Builder, hr: HeaderRule, idx: nat, g: Graph, regs: Regs)
    returns (after: Regs)
    requires e.Valid() && Within(EmitRule(t, e, hr, idx).graph, g)
    ensures Meets(g, Here(e, regs), RuleMeaning(t, hr, idx, regs.m.state), EmitRule(t, e, hr, idx), after)
  {
    hide Reaches, Within, RuleMeaning, EmitRule;
    RuleFollows(t, e, hr, idx);
    after := RuleMeets(t, e, hr, idx, g, regs);
  }

  lemma {:induction false} RulesMeet(t: Tables, e: Builder, rules: seq<HeaderRule>, n: nat, g: Graph, regs: Regs)
    returns (after: Regs)
    requires e.Valid() && n <= |rules| && Within(EmitRules(t, e, rules, n).graph, g)
    ensures Meets(g, Here(e, regs), Rules(t, rules, n, regs.m.state), EmitRules(t, e, rules, n), after)
  {
    hide Reaches, Within, EmitRule, RuleMeaning, Here, Follows;
    if n == 0 {
      after := regs;
      ReachesSelf(g, Here(e, regs));
    } else {
      var f, h := EmitRules(t, e, rules, n - 1), EmitRules(t, e, rules, n);
      RuleFollows(t, f, rules[n - 1], n - 1);
      WithinFollows(f, h, g);
      KeepsReject(f, h);
      after := RulesMeet(t, e, rules, n - 1, g, regs);
      if Rules(t, rules, n - 1, regs.m.state).flow.Continue? {
        var mid := after;
        after := RuleEmitted(t, f, rules[n - 1], n - 1, g, mid);
        MeetsAfter(g, Here(e, regs), Here(f, mid), Rules(t, rules, n, regs.m.state), h, after);
      }
    }
  }

  // ---- the whole function --------------------------------------------------

  function Emitted(t: Tables, rules: seq<HeaderRule>): (e: Builder)
    ensures e.Valid() && Follows(Fresh(), e)
  {
    RulesFollow(t, Fresh(), rules, |rules|);
    EmitRules(t, Fresh(), rules, |rules|)
  }

  /** What is left to emit into: ret.ok is untouched and is not the reject block. */
  lemma {:induction false} EmittedShape(t: Tables, rules: seq<HeaderRule>)
    ensures var e := Emitted(t, rules);
      RET_OK < |e.graph| && e.cur != RET_OK && e.graph[RET_OK] == [] && e.reject != Some(RET_OK)
  {
    hide EmitRules;
    var e := Emitted(t, rules);
    assert Fresh().graph[RET_OK] == [] && Fresh().cur == ENTRY;
  }

  function Compiled(t: Tables, rules: seq<HeaderRule>): Graph {
    EmittedShape(t, rules);
    Finish(Emitted(t, rules)).graph
  }

  lemma {:induction false} FinishGraph(e: Builder)
    requires e.Valid() && RET_OK < |e.graph| && e.cur != RET_OK && e.graph[RET_OK] == [] && e.reject != Some(RET_OK)
    ensures
      var g := Finish(e).graph;
      && |g| == |e.graph|
      && g[e.cur] == e.graph[e.cur] + [Br(RET_OK)]
      && g[RET_OK] == [Ret(Continue)]
      && (e.reject.Some? ==> g[e.reject.value] == [Ret(Rejected)])
      && (forall b :: 0 <= b < |g| && b != e.cur && b != RET_OK && Some(b) != e.reject ==> g[b] == e.graph[b])
  {
  }

  lemma {:induction false} FinishContains(e: Builder)
    requires e.Valid() && RET_OK < |e.graph| && e.cur != RET_OK && e.graph[RET_OK] == [] && e.reject != Some(RET_OK)
    ensures Within(e.graph, Finish(e).graph) && Within(Append(e, [Br(RET_OK)]).graph, Finish(e).graph)
  {
    hide Finish;
    FinishGraph(e);
    var g := Finish(e).graph;
    forall b | 0 <= b < |e.graph|
      ensures e.graph[b] <= g[b] && Append(e, [Br(RET_OK)]).graph[b] <= g[b]
    {
      assert b != e.cur && b != RET_OK && Some(b) != e.reject ==> g[b] == e.graph[b];
    }
  }

  lemma {:induction false} RetRuns(g: Graph, b: nat, v: Flow, regs: Regs)
    requires b < |g| && g[b] == [Ret(v)]
    ensures Reaches(g, At(b, 0, regs), Done(v, regs.m.state))
  {
    hide Reaches;
    ReachesStep(g, At(b, 0, regs), Done(v, regs.m.state));
  }

  /** Execution starts at the entry block with no register defined. */
  function Initial(s: State): Config {
    At(ENTRY, 0, Regs(Machine(map[], s), map[], map[]))
  }

  /** For any numbering, the graph compiled with it does what the rules mean under it. */
  lemma {:induction false} GraphRuns(t: Tables, rules: seq<HeaderRule>, s: State)
    ensures
      var o := Rules(t, rules, |rules|, s);
      Reaches(Compiled(t, rules), Initial(s), Done(o.flow, o.state))
  {
    hide Reaches, Within, Finish, EmitRules, Rules, Follows, Emitted;
    var e, g, o := Emitted(t, rules), Compiled(t, rules), Rules(t, rules, |rules|, s);
    EmittedIs(t, rules);
    EmittedShape(t, rules);
    FinishGraph(e);
    FinishContains(e);
    assert Initial(s) == Here(Fresh(), Initial(s).regs);
    var after := RulesMeet(t, Fresh(), rules, |rules|, g, Initial(s).regs);
    if o.flow.Continue? {
      BrRuns(e, RET_OK, g, after);
      RetRuns(g, RET_OK, Continue, after);
      ReachesTrans(g, Initial(s), Here(e, after), At(RET_OK, 0, after));
      ReachesTrans(g, Initial(s), At(RET_OK, 0, after), Done(o.flow, o.state));
    } else {
      RetRuns(g, e.reject.value, Rejected, after);
      ReachesTrans(g, Initial(s), At(e.reject.value, 0, after), Done(o.flow, o.state));
    }
  }

  lemma {:induction false} EmittedIs(t: Tables, rules: seq<HeaderRule>)
    ensures Emitted(t, rules) == EmitRules(t, Fresh(), rules, |rules|)
  {
    hide EmitRules;
  }

  /**
   Compiler correctness: from every message and context, the compiled graph runs to a
   verdict, the only one it can run to, with the outcome the ruleset means.
   */
  lemma {:induction false} CompilerCorrect(rs: Ruleset, s: State)
    ensures
      var g := Compiled(TablesOf(rs), rs.headerRules);
      && Reaches(g, Initial(s), Done(Meaning(rs, s).flow, Meaning(rs, s).state))
      && (forall v: Flow, end: State :: Reaches(g, Initial(s), Done(v, end)) ==> Outcome(end, v) == Meaning(rs, s))
  {
    hide Reaches, Compiled, Rules;
    var g, o := Compiled(TablesOf(rs), rs.headerRules), Meaning(rs, s);
    GraphRuns(TablesOf(rs), rs.headerRules, s);
    forall v: Flow, end: State | Reaches(g, Initial(s), Done(v, end))
      ensures Outcome(end, v) == o
    {
      VerdictUnique(g, Initial(s), v, end, o.flow, o.state);
    }
  }
}
