/**
 Calls of the runtime as both code generators emit them: operands that are literals or
 numbered temporaries, calls that define a temporary, and calls made for their effect.
 */
module RuntimeCalls {
  import opened Text
  import opened Lowering
  import opened Message
  import opened Runtime
  import Uri

  datatype Operand = Lit(text: string) | Use(temp: nat)

  /** Calls that return a string. */
  datatype Query =
    | QHeader(name: Operand) | QMethod | QUriGet(value: Operand, elem: nat)
    | QUriSet(value: Operand, elem: nat, text: Operand)
    | QVar(id: nat) | QCapture(index: nat) | QLoad(slot: nat) | QFinish

  /** Calls that return an integer to be tested. */
  datatype Test =
    | IsRequestTest | StrEqTest(a: Operand, b: string)
    | MatchTest(matchType: nat, subject: Operand, pattern: string, regexId: nat)

  /** Calls made for their effect. */
  datatype Action =
    | DoSet(name: Operand, value: Operand) | DoAdd(name: Operand, value: Operand) | DoDelete(name: Operand)
    | DoStore(slot: nat, value: Operand)
    | DoReset | DoAppendLit(text: string) | DoAppendVar(id: nat) | DoAppendCapture(index: nat) | DoAppendSlot(slot: nat)
    | DoLog(value: Operand) | DoReject(code: nat, value: Operand)

  datatype Call = Ask(dst: nat, query: Query) | Do(action: Action)

  type Env = map<nat, string>

  datatype Machine = Machine(env: Env, state: State)

  /** The text of an operand; None for a temporary nobody defined. */
  function TextOf(op: Operand, env: Env): Option<string> {
    match op
    case Lit(text) => Some(text)
    case Use(temp) => if temp in env then Some(env[temp]) else None
  }

  function OnContext(s: State, ctx: Context): State {
    s.(ctx := ctx)
  }

  /** What a query answers; None when it reads an undefined temporary. */
  function Answer(q: Query, m: Machine): Option<string> {
    var ctx := m.state.ctx;
    match q
    case QHeader(name) => AnswerHeader(TextOf(name, m.env), m.state)
    case QMethod => Some(m.state.msg.start.verb)
    case QUriGet(value, elem) => AnswerUri(TextOf(value, m.env), elem)
    case QUriSet(value, elem, text) => AnswerSet(TextOf(value, m.env), elem, TextOf(text, m.env), ctx)
    case QVar(id) => Some(RtGetVar(ctx, id))
    case QCapture(index) => Some(RtGetCapture(ctx, index))
    case QLoad(slot) => Some(RtLoad(ctx, slot))
    case QFinish => Some(ctx.scratch)
  }

  function AnswerHeader(name: Option<string>, s: State): Option<string> {
    if name.None? then None else Some(GetHeader(s.msg, name.value))
  }

  function AnswerUri(value: Option<string>, elem: nat): Option<string> {
    if value.None? then None else Some(Uri.Component(value.value, elem))
  }

  function AnswerSet(value: Option<string>, elem: nat, text: Option<string>, ctx: Context): Option<string> {
    if value.None? || text.None? then None else Some(RtUriSet(ctx, value.value, elem, text.value).1)
  }

  /** The context a query leaves: only rebuilding a URI uses the arena. */
  function AfterAnswer(q: Query, m: Machine): State {
    match q
    case QUriSet(value, elem, text) => AfterSet(TextOf(value, m.env), elem, TextOf(text, m.env), m.state)
    case _ => m.state
  }

  function AfterSet(value: Option<string>, elem: nat, text: Option<string>, s: State): State {
    if value.None? || text.None? then s else OnContext(s, RtUriSet(s.ctx, value.value, elem, text.value).0)
  }

  /** The state an action leaves; None when it reads an undefined temporary. */
  function Perform(a: Action, m: Machine): Option<State> {
    var s := m.state;
    match a
    case DoSet(name, value) => PerformSet(TextOf(name, m.env), TextOf(value, m.env), s)
    case DoAdd(name, value) => PerformAdd(TextOf(name, m.env), TextOf(value, m.env), s)
    case DoDelete(name) => PerformDelete(TextOf(name, m.env), s)
    case DoStore(slot, value) => PerformStore(slot, TextOf(value, m.env), s)
    case DoReset => Some(OnContext(s, s.ctx.(scratch := "")))
    case DoAppendLit(text) => Some(OnContext(s, RtAppend(s.ctx, text)))
    case DoAppendVar(id) => Some(OnContext(s, RtAppend(s.ctx, RtGetVar(s.ctx, id))))
    case DoAppendCapture(index) => Some(OnContext(s, RtAppend(s.ctx, RtGetCapture(s.ctx, index))))
    case DoAppendSlot(slot) => Some(OnContext(s, RtAppend(s.ctx, RtLoad(s.ctx, slot))))
    case DoLog(value) => PerformLog(TextOf(value, m.env), s)
    case DoReject(code, value) => PerformReject(code, TextOf(value, m.env), s)
  }

  function PerformSet(name: Option<string>, value: Option<string>, s: State): Option<State> {
    if name.None? || value.None? then None else Some(RtSetHeader(s, name.value, value.value))
  }

  function PerformAdd(name: Option<string>, value: Option<string>, s: State): Option<State> {
    if name.None? || value.None? then None else Some(RtAddHeader(s, name.value, value.value))
  }

  function PerformDelete(name: Option<string>, s: State): Option<State> {
    if name.None? then None else Some(RtDeleteHeader(s, name.value))
  }

  function PerformStore(slot: nat, value: Option<string>, s: State): Option<State> {
    if value.None? then None else Some(OnContext(s, RtStore(s.ctx, slot, value.value)))
  }

  function PerformLog(value: Option<string>, s: State): Option<State> {
    if value.None? then None else Some(OnContext(s, RtLog(s.ctx, value.value)))
  }

  function PerformReject(code: nat, value: Option<string>, s: State): Option<State> {
    if value.None? then None else Some(OnContext(s, RtReject(s.ctx, code, value.value)))
  }

  /** A test's integer and the state it leaves; None when it reads an undefined temporary. */
  ghost function RunTest(t: Test, m: Machine): Option<(State, bool)> {
    match t
    case IsRequestTest => Some((m.state, m.state.msg.start.isRequest))
    case StrEqTest(a, b) => TestedEq(TextOf(a, m.env), b, m.state)
    case MatchTest(matchType, subject, pattern, regexId) =>
      TestedMatch(matchType, TextOf(subject, m.env), pattern, regexId, m.state)
  }

  function TestedEq(a: Option<string>, b: string, s: State): Option<(State, bool)> {
    if a.None? then None else Some((s, IEquals(a.value, b)))
  }

  ghost function TestedMatch(
    matchType: nat, subject: Option<string>, pattern: string, regexId: nat, s: State): Option<(State, bool)>
  {
    if subject.None? then None
    else
      var r := RtMatch(s.ctx, matchType, subject.value, pattern, regexId);
      Some((OnContext(s, r.0), r.1))
  }

  function Exec(c: Call, m: Machine): Option<Machine> {
    match c
    case Ask(dst, query) => Define(dst, Answer(query, m), Machine(m.env, AfterAnswer(query, m)))
    case Do(action) => Leave(Perform(action, m), m.env)
  }

  function Define(dst: nat, text: Option<string>, m: Machine): Option<Machine> {
    if text.None? then None else Some(Machine(m.env[dst := text.value], m.state))
  }

  function Leave(s: Option<State>, env: Env): Option<Machine> {
    if s.None? then None else Some(Machine(env, s.value))
  }

  /** Straight-line execution. */
  function RunCalls(code: seq<Call>, m: Option<Machine>): Option<Machine> {
    if code == [] then m
    else ExecAfter(RunCalls(code[..|code| - 1], m), code[|code| - 1])
  }

  function ExecAfter(m: Option<Machine>, c: Call): Option<Machine> {
    if m.None? then None else Exec(c, m.value)
  }

  lemma {:induction false} RunAppend(a: seq<Call>, b: seq<Call>, m: Option<Machine>)
    ensures RunCalls(a + b, m) == RunCalls(b, RunCalls(a, m))
  {
    hide Exec;
    if b == [] {
      assert a + b == a;
    } else {
      assert (a + b)[..|a + b| - 1] == a + b[..|b| - 1];
      RunAppend(a, b[..|b| - 1], m);
    }
  }

  lemma {:induction false} RunOne(c: Call, m: Option<Machine>)
    ensures RunCalls([c], m) == ExecAfter(m, c)
  {
    hide Exec;
    assert [c][..0] == [];
  }

  lemma {:induction false} RunTwo(a: Call, b: Call, m: Option<Machine>)
    ensures RunCalls([a, b], m) == ExecAfter(ExecAfter(m, a), b)
  {
    hide Exec;
    assert [a, b][..1] == [a];
    RunOne(a, m);
  }

  /** A query that answers `text` defines its temporary. */
  lemma {:induction false} AskRuns(dst: nat, q: Query, m: Machine, text: string)
    requires Answer(q, m) == Some(text)
    ensures ExecAfter(Some(m), Ask(dst, q)) == Some(Machine(m.env[dst := text], AfterAnswer(q, m)))
  {
    hide Answer, AfterAnswer;
  }

  lemma {:induction false} DoRuns(a: Action, m: Machine, s: State)
    requires Perform(a, m) == Some(s)
    ensures ExecAfter(Some(m), Do(a)) == Some(Machine(m.env, s))
  {
    hide Perform;
  }

  // ---- temporaries ---------------------------------------------------------

  function Operands(op: Operand): set<nat> {
    if op.Use? then {op.temp} else {}
  }

  function QueryUses(q: Query): set<nat> {
    match q
    case QHeader(name) => Operands(name)
    case QUriGet(value, _) => Operands(value)
    case QUriSet(value, _, text) => Operands(value) + Operands(text)
    case _ => {}
  }

  function ActionUses(a: Action): set<nat> {
    match a
    case DoSet(name, value) => Operands(name) + Operands(value)
    case DoAdd(name, value) => Operands(name) + Operands(value)
    case DoDelete(name) => Operands(name)
    case DoStore(_, value) => Operands(value)
    case DoLog(value) => Operands(value)
    case DoReject(_, value) => Operands(value)
    case _ => {}
  }

  function TestUses(t: Test): set<nat> {
    match t
    case IsRequestTest => {}
    case StrEqTest(a, _) => Operands(a)
    case MatchTest(_, subject, _, _) => Operands(subject)
  }

  function Uses(c: Call): set<nat> {
    if c.Ask? then QueryUses(c.query) else ActionUses(c.action)
  }

  /** How many temporaries a piece of code defines. */
  function Asks(code: seq<Call>): nat {
    if code == [] then 0 else Asks(code[..|code| - 1]) + if code[|code| - 1].Ask? then 1 else 0
  }

  /**
   Code numbered from `r`: its k-th definition is temporary r + k, and it reads only
   temporaries in `known` and ones it defined before.
   */
  predicate Numbered(code: seq<Call>, r: nat, known: set<nat>) {
    code == [] ||
    (Numbered(code[..|code| - 1], r, known) && NumberedLast(code[|code| - 1], r, Asks(code[..|code| - 1]), known))
  }

  predicate NumberedLast(c: Call, r: nat, asked: nat, known: set<nat>) {
    && (c.Ask? ==> c.dst == r + asked)
    && (forall t <- Uses(c) :: t in known || r <= t < r + asked)
  }

  lemma {:induction false} NumberedAppend(a: seq<Call>, b: seq<Call>, r: nat, known: set<nat>, more: set<nat>)
    requires Numbered(a, r, known) && Numbered(b, r + Asks(a), more)
    requires forall t <- more :: t in known || r <= t < r + Asks(a)
    ensures Numbered(a + b, r, known) && Asks(a + b) == Asks(a) + Asks(b)
  {
    hide Uses;
    if b == [] {
      assert a + b == a;
    } else {
      assert (a + b)[..|a + b| - 1] == a + b[..|b| - 1];
      NumberedAppend(a, b[..|b| - 1], r, known, more);
    }
  }

  /** `later` still has every temporary below `r` that `env` has, with the same text. */
  predicate Keeps(env: Env, later: Env, r: nat) {
    forall t :: t in env && t < r ==> t in later && later[t] == env[t]
  }

  lemma {:induction false} NumberedKeeps(code: seq<Call>, r: nat, known: set<nat>, m: Machine)
    requires Numbered(code, r, known) && RunCalls(code, Some(m)).Some?
    ensures Keeps(m.env, RunCalls(code, Some(m)).value.env, r)
  {
    hide Answer, Perform, AfterAnswer, Uses;
    if code != [] {
      NumberedKeeps(code[..|code| - 1], r, known, m);
    }
  }
}
