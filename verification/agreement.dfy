/**
 The three back ends agree: for every ruleset, message and context the block graph and
 the generated closures end as the interpreter does, and all publish the same tables.
 */
module Agreement {
  import opened Text
  import opened Ast
  import opened SipMessage
  import opened Callbacks
  import opened Semantics
  import opened BlockGraph
  import opened IrCorrect
  import opened CppClosures
  import opened CppEmission
  import R = Runtime
  import Interp
  import IrGenerator
  import CppGenerator

  /** The block graph reaches a verdict exactly when the closures return it. */
  lemma {:induction false} BackEndsAgree(rs: Ruleset, s: R.State, v: Flow, end: R.State)
    ensures Reaches(Compiled(TablesOf(rs), rs.headerRules), Initial(s), Done(v, end)) <==>
            RunProgram(Generated(rs), s) == Some(Outcome(end, v))
  {
    hide Reaches, Compiled, RunProgram, Generated, Rules;
    CompilerCorrect(rs, s);
    GeneratedCorrect(rs, s);
  }

  /** What one back end makes of a ruleset: what it publishes, and which slot and pattern has which number. */
  datatype Published = Published(info: R.ModuleInfo, tables: Tables)

  /** Builds all three from one ruleset, applies the interpreter, and compares. */
  method Compare(rs: Ruleset, msg: HmrSipMsg, ctx: HmrContext)
    returns (verdict: Flow, interpreted: Published, graph: Graph, ir: Published, rules: seq<seq<Stmt>>, cpp: Published)
    requires Linked(msg, ctx)
    modifies ctx, Written(msg, ctx)
    ensures Linked(msg, ctx)
    ensures Reaches(graph, Initial(old(StateOf(msg, ctx))), Done(verdict, StateOf(msg, ctx)))
    ensures RunProgram(rules, old(StateOf(msg, ctx))) == Some(Outcome(StateOf(msg, ctx), verdict))
    ensures interpreted == ir == cpp
    ensures interpreted.info == R.ModuleInfo(|interpreted.tables.slots|, interpreted.tables.regexes)
  {
    hide Reaches, Compiled, RunProgram, Generated, Rules;
    ghost var before := StateOf(msg, ctx);
    var interpreter := new Interp.Interpreter(rs);
    interpreted := Published(interpreter.info, interpreter.Tab());
    var emitter := new IrGenerator.Emitter();
    var irInfo, cppInfo;
    graph, irInfo := emitter.Generate(rs);
    ir := Published(irInfo, emitter.Tab());
    var cppEmitter := new CppGenerator.CppEmitter();
    rules, cppInfo := cppEmitter.Generate(rs);
    cpp := Published(cppInfo, cppEmitter.Tab());
    verdict := interpreter.Apply(msg, ctx);
    CompilerCorrect(rs, before);
    GeneratedCorrect(rs, before);
  }
}
