/**
 What the IR generator emits, as functions on the builder state: the blocks so far, the
 insertion block, the next register, and the reject block once one exists. Beside the
 blocks the builder keeps, for the proofs only, which registers each block may count on
 and the order in which blocks became the insertion block.
 */
module IrEmission {
  import opened Text
  import opened Ast
  import opened Lowering
  import opened Runtime
  import opened RuntimeCalls
  import opened Semantics
  import opened Fragments
  import opened BlockGraph

  datatype Builder = Builder(
    graph: Graph, cur: nat, next: nat, reject: Option<nat>,
    avail: seq<set<Register>>, rank: seq<Option<nat>>, clock: nat)
  {
    predicate Valid() {
      cur < |graph| && |avail| == |graph| && |rank| == |graph| &&
      (reject.Some? ==> reject.value < |graph| && reject.value != cur && graph[reject.value] == [])
    }

    /** The registers defined wherever the next instruction goes. */
    function Known(): set<Register>
      requires Valid()
    {
      avail[cur] + DefinedBy(graph[cur])
    }
  }

  /** How many registers a piece of code defines. */
  function Values(code: seq<Instr>): nat {
    if code == [] then 0
    else Values(code[..|code| - 1]) + if Defines(code[|code| - 1]) != {} then 1 else 0
  }

  lemma {:induction false} ValuesOne(i: Instr)
    ensures Values([i]) == if Defines(i) != {} then 1 else 0
  {
    assert [i][..0] == [];
  }

  lemma {:induction false} ValuesAppend(a: seq<Instr>, b: seq<Instr>)
    ensures Values(a + b) == Values(a) + Values(b)
  {
    if b == [] {
      assert a + b == a;
    } else {
      assert (a + b)[..|a + b| - 1] == a + b[..|b| - 1];
      ValuesAppend(a, b[..|b| - 1]);
    }
  }

  lemma {:induction false} LiftedValues(calls: seq<Call>)
    ensures Values(Lift(calls)) == Asks(calls)
  {
    if calls != [] {
      var front := calls[..|calls| - 1];
      LiftedValues(front);
      assert Lift(calls)[..|calls| - 1] == Lift(front);
    }
  }

  function Append(e: Builder, code: seq<Instr>): (f: Builder)
    requires e.Valid()
    ensures f.Valid()
  {
    e.(graph := e.graph[e.cur := e.graph[e.cur] + code], next := e.next + Values(code))
  }

  function NewBlock(e: Builder, known: set<Register>): (f: Builder)
    requires e.Valid()
    ensures f.Valid()
  {
    e.(graph := e.graph + [[]], avail := e.avail + [known], rank := e.rank + [None])
  }

  function SetInsert(e: Builder, b: nat): (f: Builder)
    requires e.Valid() && b < |e.graph| && e.reject != Some(b)
    ensures f.Valid()
  {
    e.(cur := b, rank := e.rank[b := Some(e.clock)], clock := e.clock + 1)
  }

  /** Branches to a fresh block when the bit holds, else to `skip`; emission goes on in the fresh one. */
  function Guarded(e: Builder, bit: nat, skip: nat): (f: Builder)
    requires e.Valid()
    ensures f.Valid()
  {
    SetInsert(Append(NewBlock(e, e.Known()), [CondBr(bit, |e.graph|, skip)]), |e.graph|)
  }

  function WithReject(e: Builder): (f: Builder)
    requires e.Valid()
    ensures f.Valid() && f.reject.Some?
  {
    if e.reject.Some? then e else NewBlock(e, {}).(reject := Some(|e.graph|))
  }

  function JumpToReject(e: Builder): (f: Builder)
    requires e.Valid()
    ensures f.Valid()
  {
    Append(WithReject(e), [Br(WithReject(e).reject.value)])
  }

  // ---- guards --------------------------------------------------------------

  /** A call tested against zero, the bit inverted on demand. */
  function TestCode(r: nat, test: Test, negated: bool): seq<Instr> {
    [Check(r, test), NotZero(r + 1, r)] + if negated then [Not(r + 2, r + 1)] else []
  }

  function TestBit(r: nat, negated: bool): nat {
    if negated then r + 2 else r + 1
  }

  function EmitTest(e: Builder, test: Test, negated: bool, skip: nat): (f: Builder)
    requires e.Valid()
    ensures f.Valid()
  {
    Guarded(Append(e, TestCode(e.next, test, negated)), TestBit(e.next, negated), skip)
  }

  function EmitMatch(t: Tables, e: Builder, cmp: ComparisonType, mvt: MatchValType, mv: Value, subject: Operand, skip: nat): (f: Builder)
    requires e.Valid()
    ensures f.Valid()
  {
    if !Semantics.Tested(mv) then e
    else EmitTest(e, MatchTest(MatchTypeOf(cmp, mvt, mv.PatternText()), subject, mv.PatternText(), PatternId(t, cmp, mv)),
                  mv.negated, skip)
  }

  function EmitType(e: Builder, hr: HeaderRule, skip: nat): (f: Builder)
    requires e.Valid()
    ensures f.Valid()
  {
    if hr.msgType.Request? then EmitTest(e, IsRequestTest, false, skip)
    else if hr.msgType.Reply? then EmitTest(e, IsRequestTest, true, skip)
    else e
  }

  /** One listed method: compare, test, fold into the disjunction so far. */
  function MethodCode(r: nat, methods: seq<string>, k: nat): seq<Instr>
    requires k < |methods|
  {
    var x := r + 1 + 3 * k;
    [Check(x, StrEqTest(Use(r), methods[k])), NotZero(x + 1, x), Or(x + 2, MethodAcc(r, k), x + 1)]
  }

  function MethodAcc(r: nat, k: nat): BitOperand {
    if k == 0 then Const(false) else Bit(r + 3 * k)
  }

  function MethodsCode(r: nat, methods: seq<string>, n: nat): seq<Instr>
    requires n <= |methods|
  {
    if n == 0 then [] else MethodsCode(r, methods, n - 1) + MethodCode(r, methods, n - 1)
  }

  function EmitMethods(e: Builder, hr: HeaderRule, skip: nat): (f: Builder)
    requires e.Valid()
    ensures f.Valid()
  {
    if !hr.HasMethodFilter() then e
    else
      Guarded(Append(e, [Run(Ask(e.next, QMethod))] + MethodsCode(e.next, hr.methods, |hr.methods|)),
              e.next + 3 * |hr.methods|, skip)
  }

  // ---- rules ---------------------------------------------------------------

  /** An element rule past its guard: the action, and the way on to `cont` or to the reject block. */
  function ElementTail(t: Tables, e: Builder, hr: HeaderRule, er: ElementRule, elem: nat, r: nat, cont: nat): (f: Builder)
    requires e.Valid()
    ensures f.Valid()
  {
    var a := Append(e, Lift(ElementCode(t, e.next, hr, er, Lit(hr.headerName), elem, Use(r), Use(ReadTemp(r, elem)))));
    if er.action.RejectElement? then JumpToReject(a) else Append(a, [Br(cont)])
  }

  /** An element rule after its header has been read into temporary `r`. */
  function EmitElementBody(t: Tables, e: Builder, hr: HeaderRule, er: ElementRule, elem: nat, r: nat, cont: nat): (f: Builder)
    requires e.Valid()
    ensures f.Valid()
  {
    ElementTail(t, EmitMatch(t, e, er.comparison, er.matchValType, er.matchValue, Use(ReadTemp(r, elem)), cont),
                hr, er, elem, r, cont)
  }

  function EmitElement(t: Tables, e: Builder, hr: HeaderRule, er: ElementRule): (f: Builder)
    requires e.Valid()
    ensures f.Valid()
  {
    if UriElement(er.kind).None? then e
    else
      var elem := UriElement(er.kind).value;
      var n := Append(NewBlock(e, e.Known()), Lift(ReadCalls(e.next, Lit(hr.headerName), elem)));
      Resume(EmitElementBody(t, n, hr, er, elem, e.next, |e.graph|), |e.graph|)
  }

  /** Emission goes on in block `b`, unless it is no block that can be resumed. */
  function Resume(e: Builder, b: nat): (f: Builder)
    requires e.Valid()
    ensures f.Valid()
  {
    if b < |e.graph| && e.reject != Some(b) then SetInsert(e, b) else e
  }

  function EmitElements(t: Tables, e: Builder, hr: HeaderRule, n: nat): (f: Builder)
    requires e.Valid() && n <= |hr.elementRules|
    ensures f.Valid()
    decreases n
  {
    if n == 0 then e else EmitElement(t, EmitElements(t, e, hr, n - 1), hr, hr.elementRules[n - 1])
  }

  function EmitFetch(e: Builder, hr: HeaderRule): (f: Builder)
    requires e.Valid()
    ensures f.Valid()
  {
    if NeedsHeader(hr) then Append(e, [Run(Ask(e.next, QHeader(Lit(hr.headerName))))]) else e
  }

  function EmitFilters(e: Builder, hr: HeaderRule, cont: nat): (f: Builder)
    requires e.Valid()
    ensures f.Valid()
  {
    EmitMethods(EmitType(e, hr, cont), hr, cont)
  }

  /** The header-level guard. */
  function EmitHeaderGuard(t: Tables, e: Builder, hr: HeaderRule, cont: nat): (f: Builder)
    requires e.Valid()
    ensures f.Valid()
  {
    EmitMatch(t, EmitFetch(e, hr), hr.comparison, AnyValue, hr.matchValue, Subject(hr, e.next), cont)
  }

  /** The action and element rules, once the guards are emitted; `r` holds the fetched header. */
  function EmitActed(t: Tables, e: Builder, hr: HeaderRule, idx: nat, r: nat, cont: nat): (f: Builder)
    requires e.Valid()
    ensures f.Valid()
  {
    var a := Append(e, Lift(HeaderCode(t, e.next, hr, idx, Lit(hr.headerName), Fetched(hr, r))));
    if hr.action.RejectHeader? then JumpToReject(a)
    else Append(EmitElements(t, a, hr, |hr.elementRules|), [Br(cont)])
  }

  function EmitRule(t: Tables, e: Builder, hr: HeaderRule, idx: nat): (f: Builder)
    requires e.Valid()
    ensures f.Valid()
  {
    var f := EmitFilters(NewBlock(e, e.Known()), hr, |e.graph|);
    Resume(EmitActed(t, EmitHeaderGuard(t, f, hr, |e.graph|), hr, idx, f.next, |e.graph|), |e.graph|)
  }

  function EmitRules(t: Tables, e: Builder, rules: seq<HeaderRule>, n: nat): (f: Builder)
    requires e.Valid() && n <= |rules|
    ensures f.Valid()
    decreases n
  {
    if n == 0 then e else EmitRule(t, EmitRules(t, e, rules, n - 1), rules[n - 1], n - 1)
  }

  const ENTRY: nat := 0
  const RET_OK: nat := 1

  /** Entry and ret.ok exist before the first rule; emission starts in entry. */
  function Fresh(): (e: Builder)
    ensures e.Valid()
  {
    Builder([[], []], ENTRY, 0, None, [{}, {}], [Some(0), None], 1)
  }

  function Finish(e: Builder): (f: Builder)
    requires e.Valid() && RET_OK < |e.graph| && e.reject != Some(RET_OK)
    ensures f.Valid()
  {
    var ok := Append(SetInsert(Append(e, [Br(RET_OK)]), RET_OK), [Ret(Continue)]);
    if ok.reject.None? then ok
    else Append(SetInsert(ok.(reject := None), ok.reject.value), [Ret(Rejected)])
  }

  // ---- growth --------------------------------------------------------------

  /** `f` continues `e`: other blocks of `e` are untouched, its insertion block only grew. */
  predicate Follows(e: Builder, f: Builder) {
    && e.Valid() && f.Valid()
    && |e.graph| <= |f.graph|
    && (forall b :: 0 <= b < |e.graph| && b != e.cur ==> f.graph[b] == e.graph[b])
    && e.graph[e.cur] <= f.graph[e.cur]
    && (f.cur == e.cur || f.cur >= |e.graph|)
    && e.next <= f.next && e.avail <= f.avail
    && (e.reject.Some? ==> f.reject == e.reject)
    && (e.reject.None? && f.reject.Some? ==> f.reject.value >= |e.graph|)
  }

  lemma {:induction false} FollowsTrans(e: Builder, f: Builder, g: Builder)
    requires Follows(e, f) && Follows(f, g)
    ensures Follows(e, g)
  {
  }

  lemma {:induction false} FollowsSelf(e: Builder)
    requires e.Valid()
    ensures Follows(e, e)
  {
  }

  lemma {:induction false} AppendFollows(e: Builder, code: seq<Instr>)
    requires e.Valid()
    ensures Follows(e, Append(e, code)) && Append(e, code).cur == e.cur && |Append(e, code).graph| == |e.graph|
    ensures Append(e, code).reject == e.reject
  {
  }

  lemma {:induction false} NewBlockFollows(e: Builder, known: set<Register>)
    requires e.Valid()
    ensures Follows(e, NewBlock(e, known)) && NewBlock(e, known).cur == e.cur
    ensures |NewBlock(e, known).graph| == |e.graph| + 1 && NewBlock(e, known).graph[|e.graph|] == []
  {
  }

  lemma {:induction false} GuardedFollows(e: Builder, bit: nat, skip: nat)
    requires e.Valid()
    ensures Follows(e, Guarded(e, bit, skip)) && Guarded(e, bit, skip).cur == |e.graph|
    ensures Guarded(e, bit, skip).graph[|e.graph|] == []
    ensures Guarded(e, bit, skip).graph[e.cur] == e.graph[e.cur] + [CondBr(bit, |e.graph|, skip)]
    ensures Guarded(e, bit, skip).reject == e.reject
  {
  }

  lemma {:induction false} JumpFollows(e: Builder)
    requires e.Valid()
    ensures Follows(e, JumpToReject(e)) && JumpToReject(e).cur == e.cur && JumpToReject(e).reject.Some?
    ensures JumpToReject(e).graph[e.cur] == e.graph[e.cur] + [Br(JumpToReject(e).reject.value)]
  {
  }

  /** Resuming a block created since `e`, and still untouched, continues `e`. */
  lemma {:induction false} ResumeFollows(e: Builder, n: Builder, f: Builder)
    requires e.Valid() && Follows(NewBlock(e, e.Known()), n) && Follows(n, f)
    requires n.cur != |e.graph|
    ensures Follows(e, Resume(f, |e.graph|)) && Resume(f, |e.graph|).cur == |e.graph|
    ensures Resume(f, |e.graph|).graph == f.graph && Resume(f, |e.graph|).reject == f.reject
    ensures f.graph[|e.graph|] == []
  {
    NewBlockFollows(e, e.Known());
    FollowsTrans(e, NewBlock(e, e.Known()), n);
    FollowsTrans(e, n, f);
  }

  lemma {:induction false} TestFollows(e: Builder, test: Test, negated: bool, skip: nat)
    requires e.Valid()
    ensures Follows(e, EmitTest(e, test, negated, skip))
  {
    hide Follows, Append, Guarded, TestCode;
    AppendFollows(e, TestCode(e.next, test, negated));
    GuardedFollows(Append(e, TestCode(e.next, test, negated)), TestBit(e.next, negated), skip);
    FollowsTrans(e, Append(e, TestCode(e.next, test, negated)), EmitTest(e, test, negated, skip));
  }

  lemma {:induction false} MatchFollows(
    t: Tables, e: Builder, cmp: ComparisonType, mvt: MatchValType, mv: Value, subject: Operand, skip: nat)
    requires e.Valid()
    ensures Follows(e, EmitMatch(t, e, cmp, mvt, mv, subject, skip))
  {
    hide Follows, EmitTest, MatchTypeOf;
    FollowsSelf(e);
    TestFollows(e, MatchTest(MatchTypeOf(cmp, mvt, mv.PatternText()), subject, mv.PatternText(), PatternId(t, cmp, mv)),
                mv.negated, skip);
  }

  lemma {:induction false} MethodsFollow(e: Builder, hr: HeaderRule, skip: nat)
    requires e.Valid()
    ensures Follows(e, EmitMethods(e, hr, skip))
  {
    hide Follows, Append, Guarded, MethodsCode;
    FollowsSelf(e);
    if hr.HasMethodFilter() {
      var code := [Run(Ask(e.next, QMethod))] + MethodsCode(e.next, hr.methods, |hr.methods|);
      AppendFollows(e, code);
      GuardedFollows(Append(e, code), e.next + 3 * |hr.methods|, skip);
      FollowsTrans(e, Append(e, code), EmitMethods(e, hr, skip));
    }
  }

  lemma {:induction false} FiltersFollow(e: Builder, hr: HeaderRule, skip: nat)
    requires e.Valid()
    ensures Follows(e, EmitType(e, hr, skip)) && Follows(e, EmitFilters(e, hr, skip))
  {
    hide Follows, EmitTest, EmitMethods;
    FollowsSelf(e);
    TestFollows(e, IsRequestTest, false, skip);
    TestFollows(e, IsRequestTest, true, skip);
    MethodsFollow(EmitType(e, hr, skip), hr, skip);
    FollowsTrans(e, EmitType(e, hr, skip), EmitFilters(e, hr, skip));
  }

  lemma {:induction false} ElementTailFollows(
    t: Tables, e: Builder, hr: HeaderRule, er: ElementRule, elem: nat, r: nat, cont: nat)
    requires e.Valid()
    ensures Follows(e, ElementTail(t, e, hr, er, elem, r, cont))
  {
    hide Follows, Append, JumpToReject, ElementCode;
    var code := Lift(ElementCode(t, e.next, hr, er, Lit(hr.headerName), elem, Use(r), Use(ReadTemp(r, elem))));
    AppendFollows(e, code);
    AppendFollows(Append(e, code), [Br(cont)]);
    JumpFollows(Append(e, code));
    FollowsTrans(e, Append(e, code), ElementTail(t, e, hr, er, elem, r, cont));
  }

  lemma {:induction false} ElementBodyFollows(
    t: Tables, e: Builder, hr: HeaderRule, er: ElementRule, elem: nat, r: nat, cont: nat)
    requires e.Valid()
    ensures Follows(e, EmitElementBody(t, e, hr, er, elem, r, cont))
  {
    hide Follows, EmitMatch, ElementTail;
    var g := EmitMatch(t, e, er.comparison, er.matchValType, er.matchValue, Use(ReadTemp(r, elem)), cont);
    MatchFollows(t, e, er.comparison, er.matchValType, er.matchValue, Use(ReadTemp(r, elem)), cont);
    ElementTailFollows(t, g, hr, er, elem, r, cont);
    FollowsTrans(e, g, EmitElementBody(t, e, hr, er, elem, r, cont));
  }

  lemma {:induction false} ElementFollows(t: Tables, e: Builder, hr: HeaderRule, er: ElementRule)
    requires e.Valid()
    ensures Follows(e, EmitElement(t, e, hr, er))
  {
    hide Follows, EmitElementBody, Append, NewBlock, Resume;
    FollowsSelf(e);
    if UriElement(er.kind).Some? {
      var elem := UriElement(er.kind).value;
      var b := NewBlock(e, e.Known());
      var n := Append(b, Lift(ReadCalls(e.next, Lit(hr.headerName), elem)));
      NewBlockFollows(e, e.Known());
      AppendFollows(b, Lift(ReadCalls(e.next, Lit(hr.headerName), elem)));
      ElementBodyFollows(t, n, hr, er, elem, e.next, |e.graph|);
      CurInside(e);
      ResumeFollows(e, n, EmitElementBody(t, n, hr, er, elem, e.next, |e.graph|));
    }
  }

  lemma {:induction false} CurInside(e: Builder)
    requires e.Valid()
    ensures e.cur < |e.graph|
  {
  }

  lemma {:induction false} ElementsFollow(t: Tables, e: Builder, hr: HeaderRule, n: nat)
    requires e.Valid() && n <= |hr.elementRules|
    ensures Follows(e, EmitElements(t, e, hr, n))
  {
    hide Follows, EmitElement;
    FollowsSelf(e);
    if n > 0 {
      ElementsFollow(t, e, hr, n - 1);
      ElementFollows(t, EmitElements(t, e, hr, n - 1), hr, hr.elementRules[n - 1]);
      FollowsTrans(e, EmitElements(t, e, hr, n - 1), EmitElements(t, e, hr, n));
    }
  }

  lemma {:induction false} HeaderGuardFollows(t: Tables, e: Builder, hr: HeaderRule, cont: nat)
    requires e.Valid()
    ensures Follows(e, EmitFetch(e, hr)) && Follows(e, EmitHeaderGuard(t, e, hr, cont))
  {
    hide Follows, EmitMatch, Append;
    FollowsSelf(e);
    AppendFollows(e, [Run(Ask(e.next, QHeader(Lit(hr.headerName))))]);
    MatchFollows(t, EmitFetch(e, hr), hr.comparison, AnyValue, hr.matchValue, Subject(hr, e.next), cont);
    FollowsTrans(e, EmitFetch(e, hr), EmitHeaderGuard(t, e, hr, cont));
  }

  lemma {:induction false} ActedFollows(t: Tables, e: Builder, hr: HeaderRule, idx: nat, r: nat, cont: nat)
    requires e.Valid()
    ensures Follows(e, EmitActed(t, e, hr, idx, r, cont))
  {
    hide Follows, EmitElements, Append, JumpToReject, HeaderCode;
    var code := Lift(HeaderCode(t, e.next, hr, idx, Lit(hr.headerName), Fetched(hr, r)));
    var a := Append(e, code);
    var els := EmitElements(t, a, hr, |hr.elementRules|);
    AppendFollows(e, code);
    JumpFollows(a);
    FollowsTrans(e, a, JumpToReject(a));
    ElementsFollow(t, a, hr, |hr.elementRules|);
    AppendFollows(els, [Br(cont)]);
    FollowsTrans(e, a, els);
    FollowsTrans(e, els, Append(els, [Br(cont)]));
  }

  lemma {:induction false} RuleFollows(t: Tables, e: Builder, hr: HeaderRule, idx: nat)
    requires e.Valid()
    ensures Follows(e, EmitRule(t, e, hr, idx)) && EmitRule(t, e, hr, idx).cur == |e.graph|
    ensures EmitRule(t, e, hr, idx).graph[|e.graph|] == []
  {
    hide Follows, EmitFilters, EmitHeaderGuard, EmitActed, NewBlock, Resume;
    var b := NewBlock(e, e.Known());
    var f := EmitFilters(b, hr, |e.graph|);
    var g := EmitHeaderGuard(t, f, hr, |e.graph|);
    NewBlockFollows(e, e.Known());
    FollowsSelf(b);
    FiltersFollow(b, hr, |e.graph|);
    HeaderGuardFollows(t, f, hr, |e.graph|);
    ActedFollows(t, g, hr, idx, f.next, |e.graph|);
    FollowsTrans(b, f, g);
    FollowsTrans(b, g, EmitActed(t, g, hr, idx, f.next, |e.graph|));
    CurInside(e);
    ResumeFollows(e, b, EmitActed(t, g, hr, idx, f.next, |e.graph|));
  }

  lemma {:induction false} RulesFollow(t: Tables, e: Builder, rules: seq<HeaderRule>, n: nat)
    requires e.Valid() && n <= |rules|
    ensures Follows(e, EmitRules(t, e, rules, n))
  {
    hide Follows, EmitRule;
    FollowsSelf(e);
    if n > 0 {
      RulesFollow(t, e, rules, n - 1);
      RuleFollows(t, EmitRules(t, e, rules, n - 1), rules[n - 1], n - 1);
      FollowsTrans(e, EmitRules(t, e, rules, n - 1), EmitRules(t, e, rules, n));
    }
  }
}
