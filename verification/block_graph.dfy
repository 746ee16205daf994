/**
 The target of the IR generator: a graph of basic blocks over typed registers, its
 small-step execution, and what makes a graph well formed.
 */
module BlockGraph {
  import opened Text
  import opened Runtime
  import opened RuntimeCalls
  import opened Semantics

  /** An i1 operand: a constant or a register. */
  datatype BitOperand = Const(bit: bool) | Bit(reg: nat)

  datatype Instr =
    | Run(call: Call)
    | Check(dst: nat, test: Test)
    | NotZero(dst: nat, word: nat)
    | Not(dst: nat, bit: nat)
    | Or(dst: nat, a: BitOperand, b: nat)
    | Br(target: nat)
    | CondBr(cond: nat, yes: nat, no: nat)
    | Ret(verdict: Flow)

  type Graph = seq<seq<Instr>>

  /** Text registers live in the machine; i32 and i1 registers beside it. */
  datatype Regs = Regs(m: Machine, words: map<nat, int>, bits: map<nat, bool>)

  datatype Config = At(block: nat, pc: nat, regs: Regs) | Done(verdict: Flow, state: State)

  predicate IsTerminator(i: Instr) {
    i.Br? || i.CondBr? || i.Ret?
  }

  function BitOf(op: BitOperand, bits: map<nat, bool>): Option<bool> {
    match op
    case Const(bit) => Some(bit)
    case Bit(reg) => if reg in bits then Some(bits[reg]) else None
  }

  function SetBit(regs: Regs, dst: nat, bit: Option<bool>): Option<Regs> {
    if bit.None? then None else Some(regs.(bits := regs.bits[dst := bit.value]))
  }

  function SetMachine(regs: Regs, m: Option<Machine>): Option<Regs> {
    if m.None? then None else Some(regs.(m := m.value))
  }

  function SetWord(regs: Regs, dst: nat, tested: Option<(State, bool)>): Option<Regs> {
    if tested.None? then None
    else Some(Regs(Machine(regs.m.env, tested.value.0), regs.words[dst := if tested.value.1 then 1 else 0], regs.bits))
  }

  function OrBits(a: Option<bool>, b: Option<bool>): Option<bool> {
    if a.None? || b.None? then None else Some(a.value || b.value)
  }

  function NotBit(a: Option<bool>): Option<bool> {
    if a.None? then None else Some(!a.value)
  }

  /** A non-terminator; None when it reads an undefined register. */
  ghost function ExecInstr(i: Instr, regs: Regs): Option<Regs> {
    match i
    case Run(call) => SetMachine(regs, Exec(call, regs.m))
    case Check(dst, test) => SetWord(regs, dst, RunTest(test, regs.m))
    case NotZero(dst, word) => SetBit(regs, dst, if word in regs.words then Some(regs.words[word] != 0) else None)
    case Not(dst, bit) => SetBit(regs, dst, NotBit(BitOf(Bit(bit), regs.bits)))
    case Or(dst, a, b) => SetBit(regs, dst, OrBits(BitOf(a, regs.bits), BitOf(Bit(b), regs.bits)))
    case _ => None
  }

  ghost function Next(c: Config, regs: Option<Regs>): Option<Config>
    requires c.At?
  {
    if regs.None? then None else Some(At(c.block, c.pc + 1, regs.value))
  }

  /** One step; None when stuck: past the end of a block, or reading an undefined register. */
  ghost function Step(g: Graph, c: Config): Option<Config> {
    if c.Done? || c.block >= |g| || c.pc >= |g[c.block]| then None
    else
      match g[c.block][c.pc]
      case Br(target) => Some(At(target, 0, c.regs))
      case CondBr(cond, yes, no) =>
        if cond in c.regs.bits then Some(At(if c.regs.bits[cond] then yes else no, 0, c.regs)) else None
      case Ret(verdict) => Some(Done(verdict, c.regs.m.state))
      case i => Next(c, ExecInstr(i, c.regs))
  }

  ghost function Steps(g: Graph, c: Config, n: nat): Option<Config> {
    if n == 0 then Some(c)
    else
      var d := Steps(g, c, n - 1);
      if d.None? then None else Step(g, d.value)
  }

  ghost predicate Reaches(g: Graph, c: Config, d: Config) {
    exists n: nat :: Steps(g, c, n) == Some(d)
  }

  lemma {:induction false} StepsAdd(g: Graph, c: Config, m: nat, d: Config, n: nat)
    requires Steps(g, c, m) == Some(d)
    ensures Steps(g, c, m + n) == Steps(g, d, n)
  {
    hide Step;
    if n > 0 {
      StepsAdd(g, c, m, d, n - 1);
    }
  }

  lemma {:induction false} ReachesTrans(g: Graph, c: Config, d: Config, e: Config)
    requires Reaches(g, c, d) && Reaches(g, d, e)
    ensures Reaches(g, c, e)
  {
    hide Steps;
    var m: nat :| Steps(g, c, m) == Some(d);
    var n: nat :| Steps(g, d, n) == Some(e);
    StepsAdd(g, c, m, d, n);
  }

  lemma {:induction false} ReachesSelf(g: Graph, c: Config)
    ensures Reaches(g, c, c)
  {
    assert Steps(g, c, 0) == Some(c);
  }

  lemma {:induction false} ReachesStep(g: Graph, c: Config, d: Config)
    requires Step(g, c) == Some(d)
    ensures Reaches(g, c, d)
  {
    hide Step;
    assert Steps(g, c, 0) == Some(c);
    assert Steps(g, c, 1) == Some(d);
  }

  /** A run that reaches a verdict has no other end. */
  lemma {:induction false} VerdictUnique(g: Graph, c: Config, v: Flow, s: State, w: Flow, u: State)
    requires Reaches(g, c, Done(v, s)) && Reaches(g, c, Done(w, u))
    ensures v == w && s == u
  {
    hide Steps, Step;
    var m: nat :| Steps(g, c, m) == Some(Done(v, s));
    var n: nat :| Steps(g, c, n) == Some(Done(w, u));
    DoneStops(g, v, s);
    DoneStops(g, w, u);
    if m < n {
      StuckAfter(g, c, m, Done(v, s), n);
    } else if n < m {
      StuckAfter(g, c, n, Done(w, u), m);
    }
  }

  lemma {:induction false} DoneStops(g: Graph, v: Flow, s: State)
    ensures Step(g, Done(v, s)) == None
  {
  }

  lemma {:induction false} StuckAfter(g: Graph, c: Config, m: nat, d: Config, n: nat)
    requires Steps(g, c, m) == Some(d) && Step(g, d) == None && m < n
    ensures Steps(g, c, n) == None
  {
    hide Step;
    if m + 1 < n {
      StuckAfter(g, c, m, d, n - 1);
    }
  }

  // ---- straight-line code --------------------------------------------------

  ghost function RunInstrs(code: seq<Instr>, regs: Option<Regs>): Option<Regs> {
    if code == [] then regs
    else InstrAfter(RunInstrs(code[..|code| - 1], regs), code[|code| - 1])
  }

  ghost function InstrAfter(regs: Option<Regs>, i: Instr): Option<Regs> {
    if regs.None? then None else ExecInstr(i, regs.value)
  }

  lemma {:induction false} RunInstrsAppend(a: seq<Instr>, b: seq<Instr>, regs: Option<Regs>)
    ensures RunInstrs(a + b, regs) == RunInstrs(b, RunInstrs(a, regs))
  {
    hide ExecInstr;
    if b == [] {
      assert a + b == a;
    } else {
      assert (a + b)[..|a + b| - 1] == a + b[..|b| - 1];
      RunInstrsAppend(a, b[..|b| - 1], regs);
    }
  }

  lemma {:induction false} RunInstrsOne(i: Instr, regs: Option<Regs>)
    ensures RunInstrs([i], regs) == InstrAfter(regs, i)
  {
    hide ExecInstr;
    assert [i][..0] == [];
  }

  /** Execution runs straight through code found at `pc`. */
  lemma {:induction false} RunsThrough(g: Graph, b: nat, pc: nat, code: seq<Instr>, regs: Regs)
    requires b < |g| && pc + |code| <= |g[b]| && g[b][pc..pc + |code|] == code
    requires RunInstrs(code, Some(regs)).Some?
    ensures Reaches(g, At(b, pc, regs), At(b, pc + |code|, RunInstrs(code, Some(regs)).value))
  {
    hide ExecInstr, Reaches;
    if code == [] {
      ReachesSelf(g, At(b, pc, regs));
    } else {
      var front, last := code[..|code| - 1], code[|code| - 1];
      assert g[b][pc..pc + |front|] == front;
      RunsThrough(g, b, pc, front, regs);
      var mid := RunInstrs(front, Some(regs)).value;
      assert g[b][pc + |front|] == last;
      StepInstr(g, At(b, pc + |front|, mid), last);
      ReachesStep(g, At(b, pc + |front|, mid), At(b, pc + |code|, RunInstrs(code, Some(regs)).value));
      ReachesTrans(g, At(b, pc, regs), At(b, pc + |front|, mid), At(b, pc + |code|, RunInstrs(code, Some(regs)).value));
    }
  }

  lemma {:induction false} StepInstr(g: Graph, c: Config, i: Instr)
    requires c.At? && c.block < |g| && c.pc < |g[c.block]| && g[c.block][c.pc] == i
    requires ExecInstr(i, c.regs).Some?
    ensures Step(g, c) == Some(At(c.block, c.pc + 1, ExecInstr(i, c.regs).value))
  {
    hide Exec, RunTest;
  }

  function Lift(calls: seq<Call>): (code: seq<Instr>)
    ensures |code| == |calls|
  {
    seq(|calls|, i requires 0 <= i < |calls| => Run(calls[i]))
  }

  /** Lifted calls run as the calls do. */
  lemma {:induction false} RunLift(calls: seq<Call>, regs: Regs)
    ensures RunInstrs(Lift(calls), Some(regs)) == SetMachine(regs, RunCalls(calls, Some(regs.m)))
  {
    hide Exec;
    if calls != [] {
      var front := calls[..|calls| - 1];
      RunLift(front, regs);
      assert Lift(calls)[..|calls| - 1] == Lift(front);
    }
  }

  // ---- registers, edges, well-formedness -----------------------------------

  datatype Register = TextReg(n: nat) | WordReg(n: nat) | BitReg(n: nat)

  function TextRegs(temps: set<nat>): set<Register> {
    set t <- temps :: TextReg(t)
  }

  function Reads(i: Instr): set<Register> {
    match i
    case Run(call) => TextRegs(Uses(call))
    case Check(_, test) => TextRegs(TestUses(test))
    case NotZero(_, word) => {WordReg(word)}
    case Not(_, bit) => {BitReg(bit)}
    case Or(_, a, b) => (if a.Bit? then {BitReg(a.reg)} else {}) + {BitReg(b)}
    case CondBr(cond, _, _) => {BitReg(cond)}
    case _ => {}
  }

  function Defines(i: Instr): set<Register> {
    match i
    case Run(call) => if call.Ask? then {TextReg(call.dst)} else {}
    case Check(dst, _) => {WordReg(dst)}
    case NotZero(dst, _) => {BitReg(dst)}
    case Not(dst, _) => {BitReg(dst)}
    case Or(dst, _, _) => {BitReg(dst)}
    case _ => {}
  }

  function DefinedBy(code: seq<Instr>): set<Register> {
    if code == [] then {} else DefinedBy(code[..|code| - 1]) + Defines(code[|code| - 1])
  }

  /** Every instruction reads only registers in `known` or defined earlier in the code. */
  predicate ReadsKnown(code: seq<Instr>, known: set<Register>) {
    code == [] ||
    (ReadsKnown(code[..|code| - 1], known) && Reads(code[|code| - 1]) <= known + DefinedBy(code[..|code| - 1]))
  }

  function Targets(i: Instr): set<nat> {
    match i
    case Br(target) => {target}
    case CondBr(_, yes, no) => {yes, no}
    case _ => {}
  }

  /** Exactly one terminator, and it is the last instruction. */
  predicate Closed(code: seq<Instr>) {
    code != [] && IsTerminator(code[|code| - 1]) && Open(code[..|code| - 1])
  }

  /** No terminator yet. */
  predicate Open(code: seq<Instr>) {
    forall k :: 0 <= k < |code| ==> !IsTerminator(code[k])
  }

  predicate Edge(g: Graph, b: nat, t: nat) {
    b < |g| && g[b] != [] && t in Targets(g[b][|g[b]| - 1])
  }

  /** A path of the graph that starts at the entry block. */
  predicate Path(g: Graph, p: seq<nat>) {
    p != [] && p[0] == 0 && (forall k :: 0 <= k < |p| ==> p[k] < |g|) &&
    forall k :: 0 < k < |p| ==> Edge(g, p[k - 1], p[k])
  }

  /** The registers defined by the blocks of a path. */
  function DefinedOn(g: Graph, p: seq<nat>): set<Register> {
    if p == [] then {}
    else DefinedOn(g, p[..|p| - 1]) + if p[|p| - 1] < |g| then DefinedBy(g[p[|p| - 1]]) else {}
  }

  /**
   Well formed: every block ends in its only terminator, branches go to blocks that
   rank higher, and on every path from the entry each instruction reads only registers
   defined before it on that path.
   */
  ghost predicate WellFormed(g: Graph, rank: seq<nat>) {
    && g != [] && |rank| == |g|
    && (forall b :: 0 <= b < |g| ==> Closed(g[b]))
    && (forall b: nat, t: nat :: Edge(g, b, t) ==> t < |g| && rank[b] < rank[t])
    && (forall p: seq<nat>, pc: nat :: Path(g, p) && pc < |g[p[|p| - 1]]| ==> DefinedAt(g, p, pc))
  }

  predicate DefinedAt(g: Graph, p: seq<nat>, pc: nat)
    requires p != [] && p[|p| - 1] < |g| && pc < |g[p[|p| - 1]]|
  {
    Reads(g[p[|p| - 1]][pc]) <= DefinedOn(g, p[..|p| - 1]) + DefinedBy(g[p[|p| - 1]][..pc])
  }
}
