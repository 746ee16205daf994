/**
 What the C++ generator emits, as functions; that running it gives the meaning of the
 ruleset; and that its temporaries are declared once and read only in scope.
 */
module CppEmission {
  import opened Text
  import opened Ast
  import opened Lowering
  import opened Message
  import opened Runtime
  import opened RuntimeCalls
  import opened Semantics
  import opened Fragments
  import opened CppClosures
  import Uri

  function TypePart(hr: HeaderRule): seq<Stmt> {
    if hr.msgType.Request? then [SkipIf(IsRequestTest, false)]
    else if hr.msgType.Reply? then [SkipIf(IsRequestTest, true)]
    else []
  }

  function MethodPart(r: nat, hr: HeaderRule): seq<Stmt> {
    if hr.HasMethodFilter() then [CallStmt(Ask(r, QMethod)), SkipUnlessAny(Use(r), hr.methods)] else []
  }

  function FetchPart(r: nat, hr: HeaderRule): seq<Stmt> {
    if NeedsHeader(hr) then [CallStmt(Ask(r, QHeader(Lit(hr.headerName))))] else []
  }

  function MatchTestOf(t: Tables, cmp: ComparisonType, mvt: MatchValType, mv: Value, subject: Operand): Test {
    MatchTest(MatchTypeOf(cmp, mvt, mv.PatternText()), subject, mv.PatternText(), PatternId(t, cmp, mv))
  }

  /** A negated match-value skips when the subject does match. */
  function MatchPart(t: Tables, cmp: ComparisonType, mvt: MatchValType, mv: Value, subject: Operand): seq<Stmt> {
    if !Semantics.Tested(mv) then [] else [SkipIf(MatchTestOf(t, cmp, mvt, mv, subject), mv.negated)]
  }

  /** The temporary the header is fetched into, after the method filter's. */
  function FetchTemp(r: nat, hr: HeaderRule): nat {
    if hr.HasMethodFilter() then r + 1 else r
  }

  function ActionTemp(r: nat, hr: HeaderRule): nat {
    FetchTemp(r, hr) + if NeedsHeader(hr) then 1 else 0
  }

  function FilterPart(r: nat, hr: HeaderRule): seq<Stmt> {
    TypePart(hr) + MethodPart(r, hr)
  }

  function HeaderGuardPart(t: Tables, r: nat, hr: HeaderRule): seq<Stmt> {
    FetchPart(r, hr) + MatchPart(t, hr.comparison, AnyValue, hr.matchValue, Subject(hr, r))
  }

  function ElementBody(t: Tables, r: nat, hr: HeaderRule, er: ElementRule, name: Operand, elem: nat): seq<Stmt> {
    var ev := Use(ReadTemp(r, elem));
    Wrap(ReadCalls(r, name, elem))
    + MatchPart(t, er.comparison, er.matchValType, er.matchValue, ev)
    + Wrap(ElementCode(t, ReadTemp(r, elem) + 1, hr, er, name, elem, Use(r), ev))
    + [Return(er.action.RejectElement?)]
  }

  function ElementPart(t: Tables, r: nat, hr: HeaderRule, er: ElementRule, name: Operand): seq<Stmt> {
    if UriElement(er.kind).None? then []
    else [Closure(ElementBody(t, r, hr, er, name, UriElement(er.kind).value))]
  }

  /** Closures of the first `n` element rules, numbering temporaries on from `r`. */
  function ElementParts(t: Tables, r: nat, hr: HeaderRule, name: Operand, n: nat): seq<Stmt>
    requires n <= |hr.elementRules|
    decreases n
  {
    if n == 0 then []
    else
      var front := ElementParts(t, r, hr, name, n - 1);
      front + ElementPart(t, r + Temps(front), hr, hr.elementRules[n - 1], name)
  }

  /** The header name is bound once for all element closures. */
  function ElementsPart(t: Tables, r: nat, hr: HeaderRule): seq<Stmt> {
    if hr.elementRules == [] then []
    else [Declare(r, hr.headerName)] + ElementParts(t, r + 1, hr, Use(r), |hr.elementRules|)
  }

  function ActionCode(t: Tables, r: nat, hr: HeaderRule, idx: nat): seq<Call> {
    HeaderCode(t, ActionTemp(r, hr), hr, idx, Lit(hr.headerName), Fetched(hr, FetchTemp(r, hr)))
  }

  function TailPart(t: Tables, r: nat, hr: HeaderRule): seq<Stmt> {
    if hr.action.RejectHeader? then [Return(true)] else ElementsPart(t, r, hr) + [Return(false)]
  }

  function ActedPart(t: Tables, r: nat, hr: HeaderRule, idx: nat): seq<Stmt> {
    Wrap(ActionCode(t, r, hr, idx)) + TailPart(t, ActionTemp(r, hr) + Asks(ActionCode(t, r, hr, idx)), hr)
  }

  /** The closure body of one header rule, its temporaries numbered from `r`. */
  function RuleBody(t: Tables, r: nat, hr: HeaderRule, idx: nat): seq<Stmt> {
    FilterPart(r, hr) + (HeaderGuardPart(t, FetchTemp(r, hr), hr) + ActedPart(t, r, hr, idx))
  }

  function Bodies(t: Tables, rules: seq<HeaderRule>, n: nat): seq<seq<Stmt>>
    requires n <= |rules|
    decreases n
  {
    if n == 0 then []
    else
      var front := Bodies(t, rules, n - 1);
      front + [RuleBody(t, BodyTemps(front), rules[n - 1], n - 1)]
  }

  function BodyTemps(bodies: seq<seq<Stmt>>): nat {
    if bodies == [] then 0 else BodyTemps(bodies[..|bodies| - 1]) + Temps(bodies[|bodies| - 1])
  }

  function Generated(rs: Ruleset): seq<seq<Stmt>> {
    Bodies(TablesOf(rs), rs.headerRules, |rs.headerRules|)
  }

  // ---- correctness ---------------------------------------------------------

  lemma {:induction false} MatchPartRuns(
    t: Tables, cmp: ComparisonType, mvt: MatchValType, mv: Value, subject: Operand, text: string, m: Machine)
    requires TextOf(subject, m.env) == Some(text)
    ensures
      var g := Guard(t, cmp, mvt, mv, text, m.state.ctx);
      RunBody(MatchPart(t, cmp, mvt, mv, subject), m) ==
      if g.1 then Fell(Machine(m.env, OnContext(m.state, g.0))) else Returned(false, OnContext(m.state, g.0))
  {
    hide RunBody, RtMatch, RegexOf, MatchTypeOf;
    if !Semantics.Tested(mv) {
      BodyNone(m);
    } else {
      BodyOne(SkipIf(MatchTestOf(t, cmp, mvt, mv, subject), mv.negated), m);
    }
  }

  lemma {:induction false} FilterRuns(r: nat, hr: HeaderRule, m: Machine) returns (after: Machine)
    ensures after.state == m.state
    ensures RunBody(FilterPart(r, hr), m) ==
      if TypePasses(hr, m.state.msg) && MethodPasses(hr, m.state.msg) then Fell(after) else Returned(false, m.state)
  {
    hide RunBody, IEquals;
    BodyAppend(TypePart(hr), MethodPart(r, hr), m);
    after := if hr.HasMethodFilter() then Machine(m.env[r := m.state.msg.start.verb], m.state) else m;
    TypeRuns(hr, m);
    MethodRuns(r, hr, m);
  }

  lemma {:induction false} TypeRuns(hr: HeaderRule, m: Machine)
    ensures RunBody(TypePart(hr), m) == if TypePasses(hr, m.state.msg) then Fell(m) else Returned(false, m.state)
  {
    hide RunBody;
    BodyNone(m);
    BodyOne(SkipIf(IsRequestTest, false), m);
    BodyOne(SkipIf(IsRequestTest, true), m);
  }

  lemma {:induction false} MethodRuns(r: nat, hr: HeaderRule, m: Machine)
    ensures
      var after := if hr.HasMethodFilter() then Machine(m.env[r := m.state.msg.start.verb], m.state) else m;
      RunBody(MethodPart(r, hr), m) == if MethodPasses(hr, m.state.msg) then Fell(after) else Returned(false, m.state)
  {
    hide RunBody, IEquals;
    if !hr.HasMethodFilter() {
      BodyNone(m);
    } else {
      var ask, skip := CallStmt(Ask(r, QMethod)), SkipUnlessAny(Use(r), hr.methods);
      var asked := Machine(m.env[r := m.state.msg.start.verb], m.state);
      assert MethodPart(r, hr) == [ask] + [skip];
      BodyAppend([ask], [skip], m);
      BodyOne(ask, m);
      BodyOne(skip, asked);
    }
  }

  lemma {:induction false} HeaderGuardRuns(t: Tables, r: nat, hr: HeaderRule, m: Machine) returns (after: Machine)
    ensures
      var hv := GetHeader(m.state.msg, hr.headerName);
      var g := Guard(t, hr.comparison, AnyValue, hr.matchValue, hv, m.state.ctx);
      && after.state == OnContext(m.state, g.0)
      && (NeedsHeader(hr) ==> TextOf(Use(r), after.env) == Some(hv))
      && RunBody(HeaderGuardPart(t, r, hr), m) == if g.1 then Fell(after) else Returned(false, after.state)
  {
    hide RunBody, Guard, MatchPart, GetHeader;
    var hv := GetHeader(m.state.msg, hr.headerName);
    BodyAppend(FetchPart(r, hr), MatchPart(t, hr.comparison, AnyValue, hr.matchValue, Subject(hr, r)), m);
    if NeedsHeader(hr) {
      var fetched := Machine(m.env[r := hv], m.state);
      BodyOne(CallStmt(Ask(r, QHeader(Lit(hr.headerName)))), m);
      MatchPartRuns(t, hr.comparison, AnyValue, hr.matchValue, Use(r), hv, fetched);
      after := Machine(fetched.env, OnContext(m.state, Guard(t, hr.comparison, AnyValue, hr.matchValue, hv, m.state.ctx).0));
    } else {
      BodyNone(m);
      UntestedGuard(t, hr, hv, "", m.state.ctx);
      MatchPartRuns(t, hr.comparison, AnyValue, hr.matchValue, Lit(""), "", m);
      after := Machine(m.env, OnContext(m.state, Guard(t, hr.comparison, AnyValue, hr.matchValue, hv, m.state.ctx).0));
    }
  }

  /** An element closure returns whether its rule rejected, and leaves the state it means. */
  lemma {:induction false} ElementBodyRuns(
    t: Tables, r: nat, hr: HeaderRule, er: ElementRule, name: Operand, m: Machine)
    requires UriElement(er.kind).Some? && TextOf(name, m.env) == Some(hr.headerName) && Below(name, r)
    ensures
      var o := ElementMeaning(t, hr, er, m.state);
      RunBody(ElementBody(t, r, hr, er, name, UriElement(er.kind).value), m) == Returned(o.flow.Rejected?, o.state)
  {
    hide RunBody, RunCalls, Guard, MatchPart, ElementCode, ElementAct, ReadCalls, Uri.Component, GetHeader;
    var elem := UriElement(er.kind).value;
    var ev := Use(ReadTemp(r, elem));
    var a, b := Wrap(ReadCalls(r, name, elem)), MatchPart(t, er.comparison, er.matchValType, er.matchValue, ev);
    var code := ElementCode(t, ReadTemp(r, elem) + 1, hr, er, name, elem, Use(r), ev);
    var ret := [Return(er.action.RejectElement?)];
    var read := ReadCallsRun(r, name, hr.headerName, elem, m);
    WrapRuns(ReadCalls(r, name, elem), m);
    BodyAppend(a, b, m);
    BodyAppend(a + b, Wrap(code), m);
    BodyAppend(a + b + Wrap(code), ret, m);
    var hv := GetHeader(m.state.msg, hr.headerName);
    var part := Uri.Component(hv, elem);
    MatchPartRuns(t, er.comparison, er.matchValType, er.matchValue, ev, part, read);
    var g := Guard(t, er.comparison, er.matchValType, er.matchValue, part, m.state.ctx);
    if g.1 {
      var tested := Machine(read.env, OnContext(m.state, g.0));
      ElementRuns(t, ReadTemp(r, elem) + 1, hr, er, name, elem, Use(r), ev, hv, part, tested);
      ElementActFlow(t, hr, er, elem, hv, part, tested.state);
      WrapRuns(code, tested);
      BodyOne(ret[0], RunCalls(code, Some(tested)).value);
    }
  }

  lemma {:induction false} ElementPartsRun(t: Tables, r: nat, hr: HeaderRule, name: Operand, n: nat, m: Machine)
    requires n <= |hr.elementRules| && TextOf(name, m.env) == Some(hr.headerName) && Below(name, r)
    ensures
      var o := Elements(t, hr, n, m.state);
      RunBody(ElementParts(t, r, hr, name, n), m) ==
      if o.flow.Continue? then Fell(Machine(m.env, o.state)) else Returned(true, o.state)
  {
    hide RunBody, ElementMeaning, ElementPart;
    if n == 0 {
      BodyNone(m);
    } else {
      var front := ElementParts(t, r, hr, name, n - 1);
      ElementPartsRun(t, r, hr, name, n - 1, m);
      BodyAppend(front, ElementPart(t, r + Temps(front), hr, hr.elementRules[n - 1], name), m);
      var before := Elements(t, hr, n - 1, m.state);
      if before.flow.Continue? {
        ElementPartRuns(t, r + Temps(front), hr, hr.elementRules[n - 1], name, Machine(m.env, before.state));
      }
    }
  }

  lemma {:induction false} ElementPartRuns(t: Tables, r: nat, hr: HeaderRule, er: ElementRule, name: Operand, m: Machine)
    requires TextOf(name, m.env) == Some(hr.headerName) && Below(name, r)
    ensures
      var o := ElementMeaning(t, hr, er, m.state);
      RunBody(ElementPart(t, r, hr, er, name), m) ==
      if o.flow.Continue? then Fell(Machine(m.env, o.state)) else Returned(true, o.state)
  {
    hide RunBody, ElementBody, ElementAct, Guard, Uri.Component, GetHeader;
    if UriElement(er.kind).None? {
      BodyNone(m);
    } else {
      var body := ElementBody(t, r, hr, er, name, UriElement(er.kind).value);
      hide ElementMeaning;
      BodyOne(Closure(body), m);
      ElementBodyRuns(t, r, hr, er, name, m);
    }
  }

  lemma {:induction false} ElementsPartRuns(t: Tables, r: nat, hr: HeaderRule, m: Machine)
    ensures
      var o := Elements(t, hr, |hr.elementRules|, m.state);
      var e := RunBody(ElementsPart(t, r, hr), m);
      if o.flow.Continue? then e.Fell? && e.m.state == o.state else e == Returned(true, o.state)
  {
    hide RunBody, ElementParts;
    if hr.elementRules == [] {
      BodyNone(m);
    } else {
      hide Elements;
      var bind := Declare(r, hr.headerName);
      var bound := Machine(m.env[r := hr.headerName], m.state);
      BodyAppend([bind], ElementParts(t, r + 1, hr, Use(r), |hr.elementRules|), m);
      BodyOne(bind, m);
      ElementPartsRun(t, r + 1, hr, Use(r), |hr.elementRules|, bound);
    }
  }

  lemma {:induction false} TailRuns(t: Tables, r: nat, hr: HeaderRule, m: Machine)
    ensures
      var o := if hr.action.RejectHeader? then Outcome(m.state, Rejected) else Elements(t, hr, |hr.elementRules|, m.state);
      RunBody(TailPart(t, r, hr), m) == Returned(o.flow.Rejected?, o.state)
  {
    hide RunBody, ElementsPart, Elements;
    if hr.action.RejectHeader? {
      BodyOne(Return(true), m);
    } else {
      BodyAppend(ElementsPart(t, r, hr), [Return(false)], m);
      ElementsPartRuns(t, r, hr, m);
      var e := RunBody(ElementsPart(t, r, hr), m);
      if e.Fell? {
        BodyOne(Return(false), e.m);
      }
    }
  }

  lemma {:induction false} ActedRuns(t: Tables, r: nat, hr: HeaderRule, idx: nat, m: Machine)
    requires NeedsHeader(hr) ==> TextOf(Use(FetchTemp(r, hr)), m.env) == Some(GetHeader(m.state.msg, hr.headerName))
    ensures
      var o := Acted(t, hr, idx, m.state);
      RunBody(ActedPart(t, r, hr, idx), m) == Returned(o.flow.Rejected?, o.state)
  {
    hide RunBody, RunCalls, TailPart, HeaderCode, HeaderAct, Elements, GetHeader, Asks;
    var code := ActionCode(t, r, hr, idx);
    HeaderRuns(t, ActionTemp(r, hr), hr, idx, Lit(hr.headerName), Fetched(hr, FetchTemp(r, hr)), m);
    HeaderActFlow(t, hr, idx, m.state);
    WrapRuns(code, m);
    BodyAppend(Wrap(code), TailPart(t, ActionTemp(r, hr) + Asks(code), hr), m);
    TailRuns(t, ActionTemp(r, hr) + Asks(code), hr, RunCalls(code, Some(m)).value);
  }

  /** The closure of a header rule returns whether the rule rejected, and leaves the state it means. */
  lemma {:induction false} RuleBodyRuns(t: Tables, r: nat, hr: HeaderRule, idx: nat, m: Machine)
    ensures
      var o := RuleMeaning(t, hr, idx, m.state);
      RunBody(RuleBody(t, r, hr, idx), m) == Returned(o.flow.Rejected?, o.state)
  {
    hide RunBody, FilterPart, HeaderGuardPart, ActedPart, Guard, Acted, GetHeader, TypePasses, MethodPasses;
    var rest := HeaderGuardPart(t, FetchTemp(r, hr), hr) + ActedPart(t, r, hr, idx);
    BodyAppend(FilterPart(r, hr), rest, m);
    var filtered := FilterRuns(r, hr, m);
    if TypePasses(hr, m.state.msg) && MethodPasses(hr, m.state.msg) {
      BodyAppend(HeaderGuardPart(t, FetchTemp(r, hr), hr), ActedPart(t, r, hr, idx), filtered);
      var guarded := HeaderGuardRuns(t, FetchTemp(r, hr), hr, filtered);
      if Guard(t, hr.comparison, AnyValue, hr.matchValue, GetHeader(m.state.msg, hr.headerName), m.state.ctx).1 {
        ActedRuns(t, r, hr, idx, guarded);
      }
    }
  }

  lemma {:induction false} BodiesRun(t: Tables, rules: seq<HeaderRule>, n: nat, s: State)
    requires n <= |rules|
    ensures RunProgram(Bodies(t, rules, n), s) == Some(Rules(t, rules, n, s))
  {
    hide RunBody, RuleBody, RuleMeaning;
    if n > 0 {
      var front := Bodies(t, rules, n - 1);
      BodiesRun(t, rules, n - 1, s);
      assert Bodies(t, rules, n)[..|Bodies(t, rules, n)| - 1] == front;
      var before := Rules(t, rules, n - 1, s);
      RuleBodyRuns(t, BodyTemps(front), rules[n - 1], n - 1, Machine(map[], before.state));
    }
  }

  /** The generated C++ means the ruleset: same verdict, same final state, and it is never stuck. */
  lemma {:induction false} GeneratedCorrect(rs: Ruleset, s: State)
    ensures RunProgram(Generated(rs), s) == Some(Meaning(rs, s))
  {
    BodiesRun(TablesOf(rs), rs.headerRules, |rs.headerRules|, s);
  }

  // ---- scopes --------------------------------------------------------------

  lemma {:induction false} ScopedMono(body: seq<Stmt>, r: nat, scope: set<nat>, more: set<nat>)
    requires Scoped(body, r, scope) && scope <= more
    ensures Scoped(body, r, more)
    decreases body
  {
    hide RuntimeCalls.Uses, TestUses, Operands;
    if body != [] {
      var front := body[..|body| - 1];
      ScopedMono(front, r, scope, more);
      StmtScopedMono(body[|body| - 1], r + Temps(front), scope + Declares(front), more + Declares(front));
    }
  }

  lemma {:induction false} StmtScopedMono(s: Stmt, r: nat, scope: set<nat>, more: set<nat>)
    requires StmtScoped(s, r, scope) && scope <= more
    ensures StmtScoped(s, r, more)
    decreases s
  {
    hide RuntimeCalls.Uses, TestUses, Operands;
    if s.Closure? {
      ScopedMono(s.body, r, scope, more);
    }
  }

  /** A part that may follow another: scoped where the first leaves off. */
  lemma {:induction false} Joined(a: seq<Stmt>, b: seq<Stmt>, r: nat, scope: set<nat>, needs: set<nat>)
    requires Scoped(a, r, scope) && Scoped(b, r + Temps(a), needs) && needs <= scope + Declares(a)
    ensures Scoped(a + b, r, scope) && Temps(a + b) == Temps(a) + Temps(b)
    ensures Declares(a + b) == Declares(a) + Declares(b)
  {
    hide Scoped, Declares, Temps;
    ScopedMono(b, r + Temps(a), needs, scope + Declares(a));
    ScopedAppend(a, b, r, scope);
    TempsAppend(a, b);
  }

  lemma {:induction false} NothingScoped(r: nat, scope: set<nat>)
    ensures Scoped([], r, scope) && Temps([]) == 0 && Declares([]) == {}
  {
  }

  lemma {:induction false} MatchScoped(
    t: Tables, cmp: ComparisonType, mvt: MatchValType, mv: Value, subject: Operand, r: nat, scope: set<nat>)
    requires Operands(subject) <= scope
    ensures
      var b := MatchPart(t, cmp, mvt, mv, subject);
      Scoped(b, r, scope) && Temps(b) == 0 && Declares(b) == {}
  {
    hide Scoped, Temps, Declares, MatchTypeOf, PatternId;
    NothingScoped(r, scope);
    if Semantics.Tested(mv) {
      ScopedOne(SkipIf(MatchTestOf(t, cmp, mvt, mv, subject), mv.negated), r, scope);
    }
  }

  lemma {:induction false} FilterScoped(r: nat, hr: HeaderRule)
    ensures Scoped(FilterPart(r, hr), r, {}) && r + Temps(FilterPart(r, hr)) == FetchTemp(r, hr)
  {
    hide Scoped, Temps, Declares;
    NothingScoped(r, {});
    ScopedOne(SkipIf(IsRequestTest, false), r, {});
    ScopedOne(SkipIf(IsRequestTest, true), r, {});
    if hr.HasMethodFilter() {
      var ask, skip := CallStmt(Ask(r, QMethod)), SkipUnlessAny(Use(r), hr.methods);
      ScopedOne(ask, r, {});
      ScopedOne(skip, r + 1, {r});
      Joined([ask], [skip], r, {}, {r});
      assert MethodPart(r, hr) == [ask] + [skip];
    }
    Joined(TypePart(hr), MethodPart(r, hr), r, {}, {});
  }

  /** The fetched header as a scope of its own. */
  function FetchScope(r: nat, hr: HeaderRule): set<nat> {
    if NeedsHeader(hr) then {r} else {}
  }

  lemma {:induction false} HeaderGuardScoped(t: Tables, r: nat, hr: HeaderRule)
    ensures
      var b := HeaderGuardPart(t, r, hr);
      Scoped(b, r, {}) && Temps(b) == |FetchScope(r, hr)| && Declares(b) == FetchScope(r, hr)
  {
    hide Scoped, Temps, Declares, MatchPart;
    NothingScoped(r, {});
    ScopedOne(CallStmt(Ask(r, QHeader(Lit(hr.headerName)))), r, {});
    var a := FetchPart(r, hr);
    MatchScoped(t, hr.comparison, AnyValue, hr.matchValue, Subject(hr, r), r + Temps(a), FetchScope(r, hr));
    Joined(a, MatchPart(t, hr.comparison, AnyValue, hr.matchValue, Subject(hr, r)), r, {}, FetchScope(r, hr));
  }

  lemma {:induction false} ElementBodyScoped(
    t: Tables, r: nat, hr: HeaderRule, er: ElementRule, name: Operand, elem: nat, scope: set<nat>)
    requires Known(name, scope)
    ensures Scoped(ElementBody(t, r, hr, er, name, elem), r, scope)
  {
    hide Scoped, Temps, Declares, MatchPart, ElementCode, Numbered, Asks, ReadCalls;
    var temp := ReadTemp(r, elem);
    var known := scope + {r, temp};
    var a, b := Wrap(ReadCalls(r, name, elem)), MatchPart(t, er.comparison, er.matchValType, er.matchValue, Use(temp));
    var code := ElementCode(t, temp + 1, hr, er, name, elem, Use(r), Use(temp));
    ReadNumbered(r, name, elem, scope);
    WrapScoped(ReadCalls(r, name, elem), r, scope);
    MatchScoped(t, er.comparison, er.matchValType, er.matchValue, Use(temp), temp + 1, {temp});
    Joined(a, b, r, scope, {temp});
    ElementNumbered(t, temp + 1, hr, er, name, elem, Use(r), Use(temp), known);
    WrapScoped(code, temp + 1, known);
    Joined(a + b, Wrap(code), r, scope, known);
    ScopedOne(Return(er.action.RejectElement?), r + Temps(a + b + Wrap(code)), {});
    Joined(a + b + Wrap(code), [Return(er.action.RejectElement?)], r, scope, {});
  }

  lemma {:induction false} ElementPartsScoped(t: Tables, r: nat, hr: HeaderRule, name: Operand, n: nat, scope: set<nat>)
    requires n <= |hr.elementRules| && Known(name, scope)
    ensures Scoped(ElementParts(t, r, hr, name, n), r, scope)
  {
    hide Scoped, Temps, Declares, ElementBody;
    NothingScoped(r, scope);
    if n > 0 {
      var front, er := ElementParts(t, r, hr, name, n - 1), hr.elementRules[n - 1];
      ElementPartsScoped(t, r, hr, name, n - 1, scope);
      NothingScoped(r + Temps(front), scope);
      if UriElement(er.kind).Some? {
        var body := ElementBody(t, r + Temps(front), hr, er, name, UriElement(er.kind).value);
        ElementBodyScoped(t, r + Temps(front), hr, er, name, UriElement(er.kind).value, scope);
        ScopedOne(Closure(body), r + Temps(front), scope);
      }
      Joined(front, ElementPart(t, r + Temps(front), hr, er, name), r, scope, scope);
    }
  }

  lemma {:induction false} TailScoped(t: Tables, r: nat, hr: HeaderRule)
    ensures Scoped(TailPart(t, r, hr), r, {})
  {
    hide Scoped, Temps, Declares, ElementParts;
    ScopedOne(Return(true), r, {});
    NothingScoped(r, {});
    if hr.elementRules != [] {
      ScopedOne(Declare(r, hr.headerName), r, {});
      ElementPartsScoped(t, r + 1, hr, Use(r), |hr.elementRules|, {r});
      Joined([Declare(r, hr.headerName)], ElementParts(t, r + 1, hr, Use(r), |hr.elementRules|), r, {}, {r});
    }
    ScopedOne(Return(false), r + Temps(ElementsPart(t, r, hr)), {});
    Joined(ElementsPart(t, r, hr), [Return(false)], r, {}, {});
  }

  lemma {:induction false} RuleScoped(t: Tables, r: nat, hr: HeaderRule, idx: nat)
    ensures Scoped(RuleBody(t, r, hr, idx), r, {})
  {
    hide Scoped, Temps, Declares, FilterPart, HeaderGuardPart, HeaderCode, TailPart, Numbered, Asks;
    var fetch, at := FetchTemp(r, hr), ActionTemp(r, hr);
    var code := ActionCode(t, r, hr, idx);
    FilterScoped(r, hr);
    HeaderGuardScoped(t, fetch, hr);
    HeaderNumbered(t, at, hr, idx, Lit(hr.headerName), Fetched(hr, fetch), FetchScope(fetch, hr));
    WrapScoped(code, at, FetchScope(fetch, hr));
    TailScoped(t, at + Asks(code), hr);
    Joined(Wrap(code), TailPart(t, at + Asks(code), hr), at, FetchScope(fetch, hr), {});
    Joined(HeaderGuardPart(t, fetch, hr), ActedPart(t, r, hr, idx), fetch, {}, FetchScope(fetch, hr));
    Joined(FilterPart(r, hr), HeaderGuardPart(t, fetch, hr) + ActedPart(t, r, hr, idx), r, {}, {});
  }

  lemma {:induction false} BodiesScoped(t: Tables, rules: seq<HeaderRule>, n: nat, k: nat)
    requires k < n <= |rules|
    ensures |Bodies(t, rules, n)| == n && Scoped(Bodies(t, rules, n)[k], BodyTemps(Bodies(t, rules, n)[..k]), {})
  {
    hide Scoped, RuleBody;
    BodyCount(t, rules, n);
    BodyCount(t, rules, n - 1);
    var front := Bodies(t, rules, n - 1);
    if k < n - 1 {
      BodiesScoped(t, rules, n - 1, k);
      assert Bodies(t, rules, n)[..k] == front[..k];
    } else {
      RuleScoped(t, BodyTemps(front), rules[k], k);
      assert Bodies(t, rules, n)[..k] == front;
    }
  }

  lemma {:induction false} BodyCount(t: Tables, rules: seq<HeaderRule>, n: nat)
    requires n <= |rules|
    ensures |Bodies(t, rules, n)| == n
  {
    hide RuleBody;
    if n > 0 {
      BodyCount(t, rules, n - 1);
    }
  }

  /** Every generated closure declares each temporary once, before its uses and in scope of them. */
  lemma {:induction false} GeneratedScoped(rs: Ruleset)
    ensures |Generated(rs)| == |rs.headerRules|
    ensures forall k :: 0 <= k < |Generated(rs)| ==> Scoped(Generated(rs)[k], BodyTemps(Generated(rs)[..k]), {})
  {
    hide Scoped, Bodies;
    BodyCount(TablesOf(rs), rs.headerRules, |rs.headerRules|);
    forall k | 0 <= k < |Generated(rs)|
      ensures Scoped(Generated(rs)[k], BodyTemps(Generated(rs)[..k]), {})
    {
      BodiesScoped(TablesOf(rs), rs.headerRules, |rs.headerRules|, k);
    }
  }
}
