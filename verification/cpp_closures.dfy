/**
 The target of the C++ generator: nested closures that return whether the message was
 rejected, over the same runtime calls as the block graph.
 */
module CppClosures {
  import opened Text
  import opened Runtime
  import opened RuntimeCalls
  import opened Semantics

  datatype Stmt =
    | Declare(temp: nat, text: string)
    | CallStmt(call: Call)
    | SkipIf(test: Test, nonzero: bool)
    | SkipUnlessAny(verb: Operand, methods: seq<string>)
    | Return(rejected: bool)
    | Closure(body: seq<Stmt>)

  /** How a body ends: stuck, running off its end, or by a return. */
  datatype Exit = Stuck | Fell(m: Machine) | Returned(rejected: bool, state: State)

  function Ran(m: Option<Machine>): Exit {
    if m.None? then Stuck else Fell(m.value)
  }

  /** `if (call == 0) return false;`, or `!= 0` when `nonzero`. */
  ghost function Skipped(tested: Option<(State, bool)>, nonzero: bool, env: Env): Exit {
    if tested.None? then Stuck
    else if tested.value.1 == nonzero then Returned(false, tested.value.0)
    else Fell(Machine(env, tested.value.0))
  }

  function AnyMatched(verb: Option<string>, methods: seq<string>, m: Machine): Exit {
    if verb.None? then Stuck
    else if exists k :: 0 <= k < |methods| && IEquals(verb.value, methods[k]) then Fell(m)
    else Returned(false, m.state)
  }

  /** A closure that returns true ends its caller; running off its end is undefined. */
  function Called(inner: Exit, env: Env): Exit {
    match inner
    case Returned(rejected, state) => if rejected then Returned(true, state) else Fell(Machine(env, state))
    case _ => Stuck
  }

  ghost function RunStmt(s: Stmt, m: Machine): Exit
    decreases s
  {
    match s
    case Declare(temp, text) => Fell(Machine(m.env[temp := text], m.state))
    case CallStmt(call) => Ran(Exec(call, m))
    case SkipIf(test, nonzero) => Skipped(RunTest(test, m), nonzero, m.env)
    case SkipUnlessAny(verb, methods) => AnyMatched(TextOf(verb, m.env), methods, m)
    case Return(rejected) => Returned(rejected, m.state)
    case Closure(body) => Called(RunBody(body, m), m.env)
  }

  ghost function RunBody(body: seq<Stmt>, m: Machine): Exit
    decreases body
  {
    if body == [] then Fell(m)
    else
      var before := RunBody(body[..|body| - 1], m);
      if before.Fell? then RunStmt(body[|body| - 1], before.m) else before
  }

  /** `hmr_apply`: each rule a closure; the first to return true rejects the message. */
  ghost function RunProgram(rules: seq<seq<Stmt>>, s: State): Option<Outcome> {
    if rules == [] then Some(Outcome(s, Continue))
    else
      var before := RunProgram(rules[..|rules| - 1], s);
      if before.None? || before.value.flow.Rejected? then before
      else Verdict(RunBody(rules[|rules| - 1], Machine(map[], before.value.state)))
  }

  ghost function Verdict(e: Exit): Option<Outcome> {
    match e
    case Returned(rejected, state) => Some(Outcome(state, if rejected then Rejected else Continue))
    case _ => None
  }

  ghost function Onward(e: Exit, body: seq<Stmt>): Exit {
    if e.Fell? then RunBody(body, e.m) else e
  }

  lemma {:induction false} BodyAppend(a: seq<Stmt>, b: seq<Stmt>, m: Machine)
    ensures RunBody(a + b, m) == Onward(RunBody(a, m), b)
  {
    hide RunStmt;
    if b == [] {
      assert a + b == a;
    } else {
      assert (a + b)[..|a + b| - 1] == a + b[..|b| - 1];
      BodyAppend(a, b[..|b| - 1], m);
    }
  }

  lemma {:induction false} BodyOne(s: Stmt, m: Machine)
    ensures RunBody([s], m) == RunStmt(s, m)
  {
    hide RunStmt;
    assert [s][..0] == [];
  }

  lemma {:induction false} BodyNone(m: Machine)
    ensures RunBody([], m) == Fell(m)
  {
  }

  function Wrap(calls: seq<Call>): (body: seq<Stmt>)
    ensures |body| == |calls|
  {
    seq(|calls|, i requires 0 <= i < |calls| => CallStmt(calls[i]))
  }

  lemma {:induction false} WrapRuns(calls: seq<Call>, m: Machine)
    ensures RunBody(Wrap(calls), m) == Ran(RunCalls(calls, Some(m)))
  {
    hide Exec;
    if calls != [] {
      WrapRuns(calls[..|calls| - 1], m);
      assert Wrap(calls)[..|calls| - 1] == Wrap(calls[..|calls| - 1]);
    }
  }

  // ---- scopes --------------------------------------------------------------

  /** How many temporaries a body declares, those of its closures included. */
  function Temps(body: seq<Stmt>): nat
    decreases body
  {
    if body == [] then 0 else Temps(body[..|body| - 1]) + StmtTemps(body[|body| - 1])
  }

  function StmtTemps(s: Stmt): nat
    decreases s
  {
    match s
    case Declare(_, _) => 1
    case CallStmt(call) => if call.Ask? then 1 else 0
    case Closure(body) => Temps(body)
    case _ => 0
  }

  /** The temporaries a body declares for the statements after it in the same scope. */
  function Declares(body: seq<Stmt>): set<nat> {
    if body == [] then {} else Declares(body[..|body| - 1]) + StmtDeclares(body[|body| - 1])
  }

  function StmtDeclares(s: Stmt): set<nat> {
    match s
    case Declare(temp, _) => {temp}
    case CallStmt(call) => if call.Ask? then {call.dst} else {}
    case _ => {}
  }

  /**
   Declared before use and never twice: the k-th declaration in the text is temporary
   r + k, and each statement reads only what is in scope.
   */
  predicate Scoped(body: seq<Stmt>, r: nat, scope: set<nat>)
    decreases body
  {
    body == [] ||
    (Scoped(body[..|body| - 1], r, scope) &&
     StmtScoped(body[|body| - 1], r + Temps(body[..|body| - 1]), scope + Declares(body[..|body| - 1])))
  }

  predicate StmtScoped(s: Stmt, r: nat, scope: set<nat>)
    decreases s
  {
    match s
    case Declare(temp, _) => temp == r
    case CallStmt(call) => RuntimeCalls.Uses(call) <= scope && (call.Ask? ==> call.dst == r)
    case SkipIf(test, _) => TestUses(test) <= scope
    case SkipUnlessAny(verb, _) => Operands(verb) <= scope
    case Return(_) => true
    case Closure(body) => Scoped(body, r, scope)
  }

  lemma {:induction false} TempsAppend(a: seq<Stmt>, b: seq<Stmt>)
    ensures Temps(a + b) == Temps(a) + Temps(b) && Declares(a + b) == Declares(a) + Declares(b)
  {
    if b == [] {
      assert a + b == a;
    } else {
      assert (a + b)[..|a + b| - 1] == a + b[..|b| - 1];
      TempsAppend(a, b[..|b| - 1]);
    }
  }

  lemma {:induction false} ScopedAppend(a: seq<Stmt>, b: seq<Stmt>, r: nat, scope: set<nat>)
    requires Scoped(a, r, scope) && Scoped(b, r + Temps(a), scope + Declares(a))
    ensures Scoped(a + b, r, scope)
  {
    hide StmtScoped, StmtTemps, StmtDeclares;
    if b == [] {
      assert a + b == a;
    } else {
      assert (a + b)[..|a + b| - 1] == a + b[..|b| - 1];
      TempsAppend(a, b[..|b| - 1]);
      ScopedAppend(a, b[..|b| - 1], r, scope);
      assert scope + Declares(a + b[..|b| - 1]) == scope + Declares(a) + Declares(b[..|b| - 1]);
    }
  }

  lemma {:induction false} ScopedOne(s: Stmt, r: nat, scope: set<nat>)
    requires StmtScoped(s, r, scope)
    ensures Scoped([s], r, scope) && Temps([s]) == StmtTemps(s) && Declares([s]) == StmtDeclares(s)
  {
    hide StmtScoped, StmtTemps, StmtDeclares;
    assert [s][..0] == [];
    assert scope + {} == scope;
  }

  /** Numbered calls, as statements, are scoped. */
  lemma {:induction false} WrapScoped(calls: seq<Call>, r: nat, known: set<nat>)
    requires Numbered(calls, r, known)
    ensures Scoped(Wrap(calls), r, known) && Temps(Wrap(calls)) == Asks(calls)
    ensures forall k :: k in Declares(Wrap(calls)) <==> r <= k < r + Asks(calls)
  {
    hide RuntimeCalls.Uses;
    if calls != [] {
      WrapScoped(calls[..|calls| - 1], r, known);
      assert Wrap(calls)[..|calls| - 1] == Wrap(calls[..|calls| - 1]);
    }
  }
}
