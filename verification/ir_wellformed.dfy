/**
 The emitted graph is well formed for every ruleset: one terminator per block, no cycle,
 and no register read before it is defined on any path.
 */
module IrWellFormed {
  import opened Text
  import opened Ast
  import opened Lowering
  import opened RuntimeCalls
  import opened Semantics
  import opened Fragments
  import opened BlockGraph
  import opened IrEmission
  import opened IrCorrect

  // ---- code ----------------------------------------------------------------

  lemma {:induction false} DefinedAppend(a: seq<Instr>, b: seq<Instr>)
    ensures DefinedBy(a + b) == DefinedBy(a) + DefinedBy(b)
  {
    if b == [] {
      assert a + b == a;
    } else {
      assert (a + b)[..|a + b| - 1] == a + b[..|b| - 1];
      DefinedAppend(a, b[..|b| - 1]);
    }
  }

  lemma {:induction false} ReadsAppend(a: seq<Instr>, b: seq<Instr>, known: set<Register>)
    requires ReadsKnown(a, known) && ReadsKnown(b, known + DefinedBy(a))
    ensures ReadsKnown(a + b, known)
  {
    hide Reads, Defines;
    if b == [] {
      assert a + b == a;
    } else {
      assert (a + b)[..|a + b| - 1] == a + b[..|b| - 1];
      ReadsAppend(a, b[..|b| - 1], known);
      DefinedAppend(a, b[..|b| - 1]);
    }
  }

  lemma {:induction false} CodeOne(i: Instr, known: set<Register>)
    requires Reads(i) <= known
    ensures ReadsKnown([i], known) && DefinedBy([i]) == Defines(i)
  {
    hide Reads, Defines;
    assert [i][..0] == [];
  }

  /** Code that can go into an open block: no terminator, and every read known. */
  predicate Fits(code: seq<Instr>, known: set<Register>) {
    Open(code) && ReadsKnown(code, known)
  }

  lemma {:induction false} FitsAppend(a: seq<Instr>, b: seq<Instr>, known: set<Register>)
    requires Fits(a, known) && Fits(b, known + DefinedBy(a))
    ensures Fits(a + b, known) && DefinedBy(a + b) == DefinedBy(a) + DefinedBy(b)
  {
    hide ReadsKnown, DefinedBy;
    ReadsAppend(a, b, known);
    DefinedAppend(a, b);
  }

  lemma {:induction false} FitsOne(i: Instr, known: set<Register>)
    requires !IsTerminator(i) && Reads(i) <= known
    ensures Fits([i], known) && DefinedBy([i]) == Defines(i)
  {
    hide Reads, Defines, IsTerminator;
    CodeOne(i, known);
  }

  /** Lifted calls define exactly the temporaries they ask for. */
  lemma {:induction false} LiftDefines(calls: seq<Call>, r: nat, known: set<nat>)
    requires Numbered(calls, r, known)
    ensures forall k :: r <= k < r + Asks(calls) ==> TextReg(k) in DefinedBy(Lift(calls))
  {
    hide Uses;
    if calls != [] {
      var front, last := calls[..|calls| - 1], calls[|calls| - 1];
      LiftDefines(front, r, known);
      assert Lift(calls)[..|calls| - 1] == Lift(front);
      assert Lift(calls)[|calls| - 1] == Run(last);
    }
  }

  lemma {:induction false} LiftFits(calls: seq<Call>, r: nat, known: set<nat>, regs: set<Register>)
    requires Numbered(calls, r, known) && TextRegs(known) <= regs
    ensures Fits(Lift(calls), regs)
  {
    hide Uses, Defines;
    if calls != [] {
      var front, last := calls[..|calls| - 1], calls[|calls| - 1];
      LiftFits(front, r, known, regs);
      LiftDefines(front, r, known);
      assert Lift(calls)[..|calls| - 1] == Lift(front);
      assert Lift(calls)[|calls| - 1] == Run(last);
      forall x | x in Reads(Run(last))
        ensures x in regs + DefinedBy(Lift(front))
      {
        var k :| k in Uses(last) && x == TextReg(k);
        assert k in known ==> TextReg(k) in TextRegs(known);
      }
    }
  }

  lemma {:induction false} TestFits(r: nat, test: Test, negated: bool, known: set<Register>)
    requires TextRegs(TestUses(test)) <= known
    ensures Fits(TestCode(r, test, negated), known) && BitReg(TestBit(r, negated)) in DefinedBy(TestCode(r, test, negated))
  {
    hide Fits, DefinedBy, TestUses;
    var a, b, c := Check(r, test), NotZero(r + 1, r), Not(r + 2, r + 1);
    FitsOne(a, known);
    FitsOne(b, known + DefinedBy([a]));
    FitsAppend([a], [b], known);
    assert [a] + [b] == [a, b];
    if negated {
      FitsOne(c, known + DefinedBy([a, b]));
      FitsAppend([a, b], [c], known);
    } else {
      assert TestCode(r, test, negated) == [a, b];
    }
  }

  lemma {:induction false} MethodFits(r: nat, methods: seq<string>, k: nat, known: set<Register>)
    requires k < |methods| && TextReg(r) in known && (k > 0 ==> BitReg(r + 3 * k) in known)
    ensures Fits(MethodCode(r, methods, k), known) && BitReg(r + 3 * (k + 1)) in DefinedBy(MethodCode(r, methods, k))
  {
    hide Fits, DefinedBy;
    var x := r + 1 + 3 * k;
    var a, b, c := Check(x, StrEqTest(Use(r), methods[k])), NotZero(x + 1, x), Or(x + 2, MethodAcc(r, k), x + 1);
    FitsOne(a, known);
    FitsOne(b, known + DefinedBy([a]));
    FitsAppend([a], [b], known);
    FitsOne(c, known + DefinedBy([a] + [b]));
    FitsAppend([a] + [b], [c], known);
    assert MethodCode(r, methods, k) == [a] + [b] + [c];
  }

  lemma {:induction false} MethodsFit(r: nat, methods: seq<string>, n: nat, known: set<Register>)
    requires n <= |methods| && TextReg(r) in known
    ensures Fits(MethodsCode(r, methods, n), known)
    ensures n > 0 ==> BitReg(r + 3 * n) in DefinedBy(MethodsCode(r, methods, n))
  {
    hide MethodCode, DefinedBy;
    if n > 0 {
      var front := MethodsCode(r, methods, n - 1);
      MethodsFit(r, methods, n - 1, known);
      MethodFits(r, methods, n - 1, known + DefinedBy(front));
      FitsAppend(front, MethodCode(r, methods, n - 1), known);
    }
  }

  // ---- the builder invariant -----------------------------------------------

  /** An edge of a finished block goes to a later block that needs nothing new. */
  predicate EdgeOk(e: Builder, b: nat, t: nat)
    requires e.Valid() && b < |e.graph|
  {
    && t < |e.graph| && e.avail[t] <= e.avail[b] + DefinedBy(e.graph[b]) && e.rank[b].Some?
    && (e.rank[t].Some? ==> e.rank[b].value < e.rank[t].value)
  }

  /** Blocks not yet reached are empty, finished ones are closed, and the current one is open. */
  predicate BlockOk(e: Builder, b: nat)
    requires e.Valid() && b < |e.graph|
  {
    && (e.rank[b].Some? ==> e.rank[b].value < e.clock)
    && (e.rank[b].None? ==> e.graph[b] == [])
    && (e.rank[b].Some? && b != e.cur ==> Closed(e.graph[b]))
    && ReadsKnown(e.graph[b], e.avail[b])
  }

  ghost predicate Sound(e: Builder) {
    && e.Valid() && e.rank[e.cur].Some? && Open(e.graph[e.cur]) && e.avail[0] == {}
    && (forall b :: 0 <= b < |e.graph| ==> BlockOk(e, b))
    && (forall b: nat, t: nat :: Edge(e.graph, b, t) ==> EdgeOk(e, b, t))
    && (e.reject.Some? ==> e.avail[e.reject.value] == {} && e.rank[e.reject.value].None?)
  }

  /** A block waiting to be filled, which the insertion block may jump to. */
  predicate Pending(e: Builder, b: nat) {
    e.Valid() && b < |e.graph| && e.rank[b].None? && e.reject != Some(b) && e.avail[b] <= e.Known()
  }

  /** From `e` to `f` nothing known is lost, and no new block but the reject block is left waiting. */
  ghost predicate Widens(e: Builder, f: Builder) {
    && e.Valid() && f.Valid() && |e.graph| <= |f.graph| && e.avail <= f.avail && e.Known() <= f.Known()
    && (forall b :: 0 <= b < |e.graph| ==> f.rank[b] == e.rank[b])
    && (forall b :: |e.graph| <= b < |f.graph| && f.rank[b].None? ==> f.reject == Some(b))
    && (e.reject.Some? ==> f.reject == e.reject)
    && (e.reject.None? && f.reject.Some? ==> f.reject.value >= |e.graph|)
  }

  lemma {:induction false} WidensSelf(e: Builder)
    requires e.Valid()
    ensures Widens(e, e)
  {
  }

  lemma {:induction false} WidensTrans(e: Builder, f: Builder, g: Builder)
    requires Widens(e, f) && Widens(f, g)
    ensures Widens(e, g)
  {
  }

  lemma {:induction false} StillPending(e: Builder, f: Builder, b: nat)
    requires Widens(e, f) && Pending(e, b)
    ensures Pending(f, b)
  {
  }

  lemma {:induction false} AppendSound(e: Builder, code: seq<Instr>)
    requires Sound(e) && Fits(code, e.Known())
    ensures Sound(Append(e, code)) && Widens(e, Append(e, code))
    ensures Append(e, code).Known() == e.Known() + DefinedBy(code)
  {
    hide ReadsKnown, DefinedBy;
    var f := Append(e, code);
    assert BlockOk(e, e.cur);
    ReadsAppend(e.graph[e.cur], code, e.avail[e.cur]);
    DefinedAppend(e.graph[e.cur], code);
    forall b | 0 <= b < |f.graph| ensures BlockOk(f, b) {
      assert BlockOk(e, b);
    }
    forall b: nat, t: nat | Edge(f.graph, b, t) ensures EdgeOk(f, b, t) {
      if b == e.cur {
        OpenHasNoEdge(f.graph, b, t);
      } else {
        assert Edge(e.graph, b, t);
      }
    }
  }

  lemma {:induction false} OpenHasNoEdge(g: Graph, b: nat, t: nat)
    requires b < |g| && Open(g[b])
    ensures !Edge(g, b, t)
  {
  }

  lemma {:induction false} NewBlockSound(e: Builder, known: set<Register>)
    requires Sound(e) && known <= e.Known()
    ensures Sound(NewBlock(e, known)) && NewBlock(e, known).Known() == e.Known()
    ensures Pending(NewBlock(e, known), |e.graph|)
  {
    hide ReadsKnown;
    var f := NewBlock(e, known);
    EmptyReads(known);
    forall b | 0 <= b < |f.graph| ensures BlockOk(f, b) {
      if b < |e.graph| {
        assert BlockOk(e, b);
      }
    }
    forall b: nat, t: nat | Edge(f.graph, b, t) ensures EdgeOk(f, b, t) {
      assert Edge(e.graph, b, t);
    }
  }

  lemma {:induction false} EmptyReads(known: set<Register>)
    ensures ReadsKnown([], known) && DefinedBy([]) == {}
  {
  }

  /** The insertion block ends in `jump`, and emission goes on in the waiting block `b`. */
  function Moved(e: Builder, jump: Instr, b: nat): (f: Builder)
    requires e.Valid() && b < |e.graph| && e.reject != Some(b)
  {
    SetInsert(Append(e, [jump]), b)
  }

  predicate JumpOk(e: Builder, t: nat)
    requires e.Valid()
  {
    t < |e.graph| && e.rank[t].None? && e.avail[t] <= e.Known()
  }

  /** Ending the insertion block with a branch to waiting blocks keeps the invariant. */
  lemma {:induction false} MoveSound(e: Builder, jump: Instr, b: nat)
    requires Sound(e) && b < |e.graph| && e.rank[b].None? && e.reject != Some(b)
    requires IsTerminator(jump) && Reads(jump) <= e.Known() && Defines(jump) == {}
    requires forall t :: t in Targets(jump) ==> JumpOk(e, t)
    ensures Sound(Moved(e, jump, b)) && Moved(e, jump, b).Known() == e.avail[b]
  {
    hide Reads, Defines, ReadsKnown, DefinedBy;
    var f := Moved(e, jump, b);
    CodeOne(jump, e.Known());
    assert BlockOk(e, e.cur);
    ReadsAppend(e.graph[e.cur], [jump], e.avail[e.cur]);
    DefinedAppend(e.graph[e.cur], [jump]);
    EmptyReads({});
    assert f.graph[e.cur] == e.graph[e.cur] + [jump];
    ClosedBy(e.graph[e.cur], jump);
    assert BlockOk(e, b);
    forall c | 0 <= c < |f.graph| ensures BlockOk(f, c) {
      assert BlockOk(e, c);
    }
    forall c: nat, t: nat | Edge(f.graph, c, t) ensures EdgeOk(f, c, t) {
      if c == e.cur {
        assert JumpOk(e, t);
        assert BlockOk(e, c);
      } else {
        assert Edge(e.graph, c, t) && EdgeOk(e, c, t);
        assert BlockOk(e, c);
      }
    }
  }

  lemma {:induction false} ClosedBy(code: seq<Instr>, jump: Instr)
    requires Open(code) && IsTerminator(jump)
    ensures Closed(code + [jump])
  {
    hide IsTerminator;
    assert (code + [jump])[..|code|] == code;
  }

  // ---- emission keeps the invariant ----------------------------------------

  lemma {:induction false} GuardedSound(e: Builder, bit: nat, skip: nat)
    requires Sound(e) && BitReg(bit) in e.Known() && Pending(e, skip)
    ensures Sound(Guarded(e, bit, skip)) && Widens(e, Guarded(e, bit, skip))
  {
    hide Sound, Fits;
    var n, jump := NewBlock(e, e.Known()), CondBr(bit, |e.graph|, skip);
    SoundIsValid(e);
    NewBlockSound(e, e.Known());
    MoveSound(n, jump, |e.graph|);
    EmptyReads({});
  }

  lemma {:induction false} SoundIsValid(e: Builder)
    requires Sound(e)
    ensures e.Valid() && 0 < |e.graph| && e.rank[e.cur].Some?
    ensures e.reject.Some? ==> e.avail[e.reject.value] == {} && e.rank[e.reject.value].None?
  {
  }

  lemma {:induction false} TestSound(e: Builder, test: Test, negated: bool, skip: nat)
    requires Sound(e) && TextRegs(TestUses(test)) <= e.Known() && Pending(e, skip)
    ensures Sound(EmitTest(e, test, negated, skip)) && Widens(e, EmitTest(e, test, negated, skip))
  {
    hide Sound, Fits, Widens, Pending, Append, Guarded, TestUses;
    SoundIsValid(e);
    var code := TestCode(e.next, test, negated);
    TestFits(e.next, test, negated, e.Known());
    AppendSound(e, code);
    StillPending(e, Append(e, code), skip);
    GuardedSound(Append(e, code), TestBit(e.next, negated), skip);
    WidensTrans(e, Append(e, code), EmitTest(e, test, negated, skip));
  }

  lemma {:induction false} MatchSound(
    t: Tables, e: Builder, cmp: ComparisonType, mvt: MatchValType, mv: Value, subject: Operand, skip: nat)
    requires Sound(e) && TextRegs(Operands(subject)) <= e.Known() && Pending(e, skip)
    ensures Sound(EmitMatch(t, e, cmp, mvt, mv, subject, skip)) && Widens(e, EmitMatch(t, e, cmp, mvt, mv, subject, skip))
  {
    hide Sound, Widens, Pending, EmitTest, MatchTypeOf, PatternId;
    SoundIsValid(e);
    WidensSelf(e);
    if Semantics.Tested(mv) {
      TestSound(e, MatchTest(MatchTypeOf(cmp, mvt, mv.PatternText()), subject, mv.PatternText(), PatternId(t, cmp, mv)),
                mv.negated, skip);
    }
  }

  lemma {:induction false} TypeSound(e: Builder, hr: HeaderRule, skip: nat)
    requires Sound(e) && Pending(e, skip)
    ensures Sound(EmitType(e, hr, skip)) && Widens(e, EmitType(e, hr, skip))
  {
    hide Sound, Widens, Pending, EmitTest;
    SoundIsValid(e);
    WidensSelf(e);
    TestSound(e, IsRequestTest, false, skip);
    TestSound(e, IsRequestTest, true, skip);
  }

  lemma {:induction false} MethodsSound(e: Builder, hr: HeaderRule, skip: nat)
    requires Sound(e) && Pending(e, skip)
    ensures Sound(EmitMethods(e, hr, skip)) && Widens(e, EmitMethods(e, hr, skip))
  {
    hide Sound, Fits, Widens, Pending, Append, Guarded, MethodsCode, DefinedBy;
    SoundIsValid(e);
    WidensSelf(e);
    if hr.HasMethodFilter() {
      var r, n, ask := e.next, |hr.methods|, Run(Ask(e.next, QMethod));
      var code := [ask] + MethodsCode(r, hr.methods, n);
      FitsOne(ask, e.Known());
      MethodsFit(r, hr.methods, n, e.Known() + DefinedBy([ask]));
      FitsAppend([ask], MethodsCode(r, hr.methods, n), e.Known());
      AppendSound(e, code);
      StillPending(e, Append(e, code), skip);
      GuardedSound(Append(e, code), r + 3 * n, skip);
      WidensTrans(e, Append(e, code), EmitMethods(e, hr, skip));
    }
  }

  lemma {:induction false} FiltersSound(e: Builder, hr: HeaderRule, skip: nat)
    requires Sound(e) && Pending(e, skip)
    ensures Sound(EmitFilters(e, hr, skip)) && Widens(e, EmitFilters(e, hr, skip))
  {
    hide Sound, Widens, Pending, EmitType, EmitMethods;
    SoundIsValid(e);
    TypeSound(e, hr, skip);
    StillPending(e, EmitType(e, hr, skip), skip);
    MethodsSound(EmitType(e, hr, skip), hr, skip);
    WidensTrans(e, EmitType(e, hr, skip), EmitFilters(e, hr, skip));
  }

  lemma {:induction false} HeaderGuardSound(t: Tables, e: Builder, hr: HeaderRule, skip: nat)
    requires Sound(e) && Pending(e, skip)
    ensures Sound(EmitHeaderGuard(t, e, hr, skip)) && Widens(e, EmitHeaderGuard(t, e, hr, skip))
    ensures NeedsHeader(hr) ==> TextReg(e.next) in EmitHeaderGuard(t, e, hr, skip).Known()
  {
    hide Sound, Fits, Widens, Pending, Append, EmitMatch;
    SoundIsValid(e);
    var ask := Run(Ask(e.next, QHeader(Lit(hr.headerName))));
    var f, h := EmitFetch(e, hr), EmitHeaderGuard(t, e, hr, skip);
    WidensSelf(e);
    FitsOne(ask, e.Known());
    AppendSound(e, [ask]);
    StillPending(e, f, skip);
    MatchSound(t, f, hr.comparison, AnyValue, hr.matchValue, Subject(hr, e.next), skip);
    WidensTrans(e, f, h);
    WidensKnown(f, h);
  }

  lemma {:induction false} WidensKnown(e: Builder, f: Builder)
    requires Widens(e, f)
    ensures e.Valid() && f.Valid() && e.Known() <= f.Known()
  {
  }

  lemma {:induction false} WithRejectSound(e: Builder)
    requires Sound(e)
    ensures Sound(WithReject(e)) && Widens(e, WithReject(e)) && WithReject(e).Known() == e.Known()
    ensures JumpOk(WithReject(e), WithReject(e).reject.value)
  {
    hide BlockOk, EdgeOk;
    if e.reject.Some? {
      WidensSelf(e);
    } else {
      var n := NewBlock(e, {});
      NewBlockSound(e, {});
      SameSound(n, n.(reject := Some(|e.graph|)));
    }
  }

  /** The invariant of blocks and edges does not speak of the reject block. */
  lemma {:induction false} SameSound(e: Builder, f: Builder)
    requires e.Valid() && f.Valid() && f == e.(reject := f.reject)
    ensures forall b :: 0 <= b < |e.graph| && BlockOk(e, b) ==> BlockOk(f, b)
    ensures forall b: nat, t: nat :: b < |e.graph| && EdgeOk(e, b, t) ==> EdgeOk(f, b, t)
  {
  }

  /** A rule's last builder `w` jumps away, and emission resumes in the block made for that at `e`. */
  lemma {:induction false} ResumeSound(e: Builder, w: Builder, target: nat)
    requires Sound(e) && Sound(w) && Widens(NewBlock(e, e.Known()), w) && JumpOk(w, target)
    ensures Resume(Append(w, [Br(target)]), |e.graph|) == Moved(w, Br(target), |e.graph|)
    ensures Sound(Moved(w, Br(target), |e.graph|)) && Widens(e, Moved(w, Br(target), |e.graph|))
  {
    hide BlockOk, EdgeOk, ReadsKnown, DefinedBy;
    NewBlockSound(e, e.Known());
    StillPending(NewBlock(e, e.Known()), w, |e.graph|);
    MoveSound(w, Br(target), |e.graph|);
    EmptyReads({});
  }

  lemma {:induction false} ContOk(e: Builder, w: Builder)
    requires Sound(e) && Widens(NewBlock(e, e.Known()), w)
    ensures JumpOk(w, |e.graph|) && Pending(w, |e.graph|)
  {
    hide BlockOk, EdgeOk, DefinedBy;
    NewBlockSound(e, e.Known());
    StillPending(NewBlock(e, e.Known()), w, |e.graph|);
  }

  /** Either way out of a block, to the block to resume or to the reject block. */
  lemma {:induction false} LeaveSound(e: Builder, w: Builder, reject: bool)
    requires Sound(e) && Sound(w) && Widens(NewBlock(e, e.Known()), w)
    ensures
      var f := Resume(if reject then JumpToReject(w) else Append(w, [Br(|e.graph|)]), |e.graph|);
      Sound(f) && Widens(e, f)
  {
    hide Sound, Widens, JumpOk, Append, Resume, NewBlock, Pending;
    SoundIsValid(e);
    SoundIsValid(w);
    if reject {
      WithRejectSound(w);
      WidensTrans(NewBlock(e, e.Known()), w, WithReject(w));
      ResumeSound(e, WithReject(w), WithReject(w).reject.value);
    } else {
      ContOk(e, w);
      ResumeSound(e, w, |e.graph|);
    }
  }

  lemma {:induction false} ReadFits(r: nat, header: string, elem: nat, known: set<Register>)
    ensures
      var code := Lift(ReadCalls(r, Lit(header), elem));
      Fits(code, known) && TextReg(r) in DefinedBy(code) && TextReg(ReadTemp(r, elem)) in DefinedBy(code)
  {
    hide Fits, DefinedBy, ReadCalls, Numbered, Asks;
    ReadNumbered(r, Lit(header), elem, {});
    LiftFits(ReadCalls(r, Lit(header), elem), r, {}, known);
    LiftDefines(ReadCalls(r, Lit(header), elem), r, {});
  }

  lemma {:induction false} ElementSound(t: Tables, e: Builder, hr: HeaderRule, er: ElementRule)
    requires Sound(e)
    ensures Sound(EmitElement(t, e, hr, er)) && Widens(e, EmitElement(t, e, hr, er))
  {
    hide Sound, Fits, Widens, Pending, Append, NewBlock, Resume, EmitMatch, ElementCode, ReadCalls, DefinedBy, JumpToReject;
    SoundIsValid(e);
    WidensSelf(e);
    if UriElement(er.kind).Some? {
      var elem, r, cont, b := UriElement(er.kind).value, e.next, |e.graph|, NewBlock(e, e.Known());
      var n := Append(b, Lift(ReadCalls(r, Lit(hr.headerName), elem)));
      var subject := Use(ReadTemp(r, elem));
      var m := EmitMatch(t, n, er.comparison, er.matchValType, er.matchValue, subject, cont);
      var code := ElementCode(t, m.next, hr, er, Lit(hr.headerName), elem, Use(r), subject);
      NewBlockSound(e, e.Known());
      ReadFits(r, hr.headerName, elem, b.Known());
      AppendSound(b, Lift(ReadCalls(r, Lit(hr.headerName), elem)));
      StillPending(b, n, cont);
      MatchSound(t, n, er.comparison, er.matchValType, er.matchValue, subject, cont);
      WidensKnown(n, m);
      ElementNumbered(t, m.next, hr, er, Lit(hr.headerName), elem, Use(r), subject, {r, ReadTemp(r, elem)});
      LiftFits(code, m.next, {r, ReadTemp(r, elem)}, m.Known());
      AppendSound(m, Lift(code));
      WidensTrans(b, n, m);
      WidensTrans(b, m, Append(m, Lift(code)));
      LeaveSound(e, Append(m, Lift(code)), er.action.RejectElement?);
    }
  }

  lemma {:induction false} ElementsSound(t: Tables, e: Builder, hr: HeaderRule, n: nat)
    requires Sound(e) && n <= |hr.elementRules|
    ensures Sound(EmitElements(t, e, hr, n)) && Widens(e, EmitElements(t, e, hr, n))
  {
    hide Sound, Widens, EmitElement;
    SoundIsValid(e);
    WidensSelf(e);
    if n > 0 {
      ElementsSound(t, e, hr, n - 1);
      ElementSound(t, EmitElements(t, e, hr, n - 1), hr, hr.elementRules[n - 1]);
      WidensTrans(e, EmitElements(t, e, hr, n - 1), EmitElements(t, e, hr, n));
    }
  }

  lemma {:induction false} RuleSound(t: Tables, e: Builder, hr: HeaderRule, idx: nat)
    requires Sound(e)
    ensures Sound(EmitRule(t, e, hr, idx)) && Widens(e, EmitRule(t, e, hr, idx))
  {
    hide Sound, Fits, Widens, Pending, Append, NewBlock, Resume, EmitFilters, EmitHeaderGuard, EmitElements, HeaderCode;
    hide JumpToReject;
    SoundIsValid(e);
    var cont, b := |e.graph|, NewBlock(e, e.Known());
    var f := EmitFilters(b, hr, cont);
    var h := EmitHeaderGuard(t, f, hr, cont);
    var code := HeaderCode(t, h.next, hr, idx, Lit(hr.headerName), Fetched(hr, f.next));
    var a := Append(h, Lift(code));
    var temps := if NeedsHeader(hr) then {f.next} else {};
    NewBlockSound(e, e.Known());
    FiltersSound(b, hr, cont);
    StillPending(b, f, cont);
    HeaderGuardSound(t, f, hr, cont);
    WidensTrans(b, f, h);
    HeaderNumbered(t, h.next, hr, idx, Lit(hr.headerName), Fetched(hr, f.next), temps);
    LiftFits(code, h.next, temps, h.Known());
    AppendSound(h, Lift(code));
    WidensTrans(b, h, a);
    if hr.action.RejectHeader? {
      LeaveSound(e, a, true);
    } else {
      ElementsSound(t, a, hr, |hr.elementRules|);
      WidensTrans(b, a, EmitElements(t, a, hr, |hr.elementRules|));
      LeaveSound(e, EmitElements(t, a, hr, |hr.elementRules|), false);
    }
  }

  lemma {:induction false} RulesSound(t: Tables, e: Builder, rules: seq<HeaderRule>, n: nat)
    requires Sound(e) && n <= |rules|
    ensures Sound(EmitRules(t, e, rules, n)) && Widens(e, EmitRules(t, e, rules, n))
  {
    hide Sound, Widens, EmitRule;
    SoundIsValid(e);
    WidensSelf(e);
    if n > 0 {
      RulesSound(t, e, rules, n - 1);
      RuleSound(t, EmitRules(t, e, rules, n - 1), rules[n - 1], n - 1);
      WidensTrans(e, EmitRules(t, e, rules, n - 1), EmitRules(t, e, rules, n));
    }
  }

  // ---- the finished graph --------------------------------------------------

  /** What shows a finished graph well formed: per block, the registers defined on every way in. */
  ghost predicate Certified(g: Graph, avail: seq<set<Register>>, rank: seq<nat>) {
    && g != [] && |avail| == |g| && |rank| == |g| && avail[0] == {}
    && (forall b :: 0 <= b < |g| ==> Closed(g[b]) && ReadsKnown(g[b], avail[b]))
    && (forall b: nat, t: nat :: Edge(g, b, t) ==>
          t < |g| && rank[b] < rank[t] && avail[t] <= avail[b] + DefinedBy(g[b]))
  }

  lemma {:induction false} PathDefines(g: Graph, avail: seq<set<Register>>, rank: seq<nat>, p: seq<nat>)
    requires Certified(g, avail, rank) && Path(g, p)
    ensures avail[p[|p| - 1]] <= DefinedOn(g, p[..|p| - 1])
  {
    hide DefinedBy;
    if |p| > 1 {
      var q := p[..|p| - 1];
      PathDefines(g, avail, rank, q);
      assert Edge(g, p[|p| - 2], p[|p| - 1]);
      assert q[|q| - 1] == p[|p| - 2];
    }
  }

  lemma {:induction false} ReadsAt(code: seq<Instr>, known: set<Register>, pc: nat)
    requires ReadsKnown(code, known) && pc < |code|
    ensures Reads(code[pc]) <= known + DefinedBy(code[..pc])
  {
    hide Reads, Defines;
    if pc < |code| - 1 {
      ReadsAt(code[..|code| - 1], known, pc);
      assert code[..|code| - 1][..pc] == code[..pc];
    }
  }

  lemma {:induction false} CertifiedIsWellFormed(g: Graph, avail: seq<set<Register>>, rank: seq<nat>)
    requires Certified(g, avail, rank)
    ensures WellFormed(g, rank)
  {
    hide DefinedBy, Reads, ReadsKnown, Closed;
    forall p: seq<nat>, pc: nat | Path(g, p) && pc < |g[p[|p| - 1]]|
      ensures DefinedAt(g, p, pc)
    {
      PathDefines(g, avail, rank, p);
      ReadsAt(g[p[|p| - 1]], avail[p[|p| - 1]], pc);
    }
  }

  function RankOf(r: Option<nat>): nat {
    if r.Some? then r.value else 0
  }

  /** Ending the last open block with a return, when no block is left waiting, completes the graph. */
  lemma {:induction false} LastBlock(e: Builder, v: Flow)
    requires Sound(e) && forall b :: 0 <= b < |e.graph| ==> e.rank[b].Some?
    ensures Certified(Append(e, [Ret(v)]).graph, e.avail, seq(|e.graph|, b requires 0 <= b < |e.graph| => RankOf(e.rank[b])))
  {
    hide DefinedBy, Reads, ReadsKnown;
    var g := Append(e, [Ret(v)]).graph;
    NoReads(v);
    CodeOne(Ret(v), e.Known());
    assert BlockOk(e, e.cur);
    ReadsAppend(e.graph[e.cur], [Ret(v)], e.avail[e.cur]);
    ClosedBy(e.graph[e.cur], Ret(v));
    forall b | 0 <= b < |g| ensures Closed(g[b]) && ReadsKnown(g[b], e.avail[b]) {
      assert BlockOk(e, b);
    }
    forall b: nat, t: nat | Edge(g, b, t)
      ensures t < |g| && RankOf(e.rank[b]) < RankOf(e.rank[t]) && e.avail[t] <= e.avail[b] + DefinedBy(g[b])
    {
      assert b != e.cur;
      assert Edge(e.graph, b, t) && EdgeOk(e, b, t);
    }
  }

  lemma {:induction false} NoReads(v: Flow)
    ensures Reads(Ret(v)) == {} && Defines(Ret(v)) == {}
  {
  }

  lemma {:induction false} FreshSound()
    ensures Sound(Fresh())
  {
    EmptyReads({});
  }

  /** Without a reject block, ret.ok is the last one. */
  lemma {:induction false} FinishOk(e: Builder)
    requires Sound(e) && Widens(Fresh(), e)
    ensures RET_OK < |e.graph| && e.reject != Some(RET_OK)
    ensures Sound(Moved(e, Br(RET_OK), RET_OK))
    ensures forall b :: 0 <= b < |e.graph| && Moved(e, Br(RET_OK), RET_OK).rank[b].None? ==> e.reject == Some(b)
  {
    hide BlockOk, EdgeOk, ReadsKnown, DefinedBy;
    EmptyReads({});
    assert e.rank[RET_OK] == Fresh().rank[RET_OK] && e.avail[RET_OK] == {};
    MoveSound(e, Br(RET_OK), RET_OK);
  }

  /** The graph compiled from any rules, under any numbering, is well formed. */
  lemma {:induction false} GraphWellFormed(t: Tables, rules: seq<HeaderRule>) returns (rank: seq<nat>)
    ensures WellFormed(Compiled(t, rules), rank)
  {
    hide Sound, Certified, WellFormed, EmitRules, Widens, Emitted;
    EmittedIs(t, rules);
    EmittedShape(t, rules);
    FreshSound();
    RulesSound(t, Fresh(), rules, |rules|);
    rank := FinishWellFormed(Emitted(t, rules));
  }

  lemma {:induction false} FinishWellFormed(e: Builder) returns (rank: seq<nat>)
    requires Sound(e) && Widens(Fresh(), e)
    ensures e.Valid() && RET_OK < |e.graph| && e.reject != Some(RET_OK) && WellFormed(Finish(e).graph, rank)
  {
    hide Sound, Certified, WellFormed, Widens, BlockOk, EdgeOk, DefinedBy;
    FinishOk(e);
    SoundIsValid(e);
    var ok := Moved(e, Br(RET_OK), RET_OK);
    var last, verdict := ok, Continue;
    if e.reject.Some? {
      var open := ok.(reject := None);
      ForgetReject(ok);
      EmptyReads({});
      NoReads(Continue);
      MoveSound(open, Ret(Continue), e.reject.value);
      last, verdict := Moved(open, Ret(Continue), e.reject.value), Rejected;
    }
    LastBlock(last, verdict);
    rank := seq(|last.graph|, b requires 0 <= b < |last.graph| => RankOf(last.rank[b]));
    CertifiedIsWellFormed(Append(last, [Ret(verdict)]).graph, last.avail, rank);
  }

  lemma {:induction false} ForgetReject(e: Builder)
    requires Sound(e) && e.reject.Some?
    ensures Sound(e.(reject := None)) && e.reject.value < |e.graph| && e.rank[e.reject.value].None?
  {
    hide BlockOk, EdgeOk;
    SameSound(e, e.(reject := None));
  }

  /** For every ruleset there is an order of the blocks under which its graph is well formed. */
  lemma {:induction false} CompiledIsWellFormed(rs: Ruleset)
    ensures exists rank :: WellFormed(Compiled(TablesOf(rs), rs.headerRules), rank)
  {
    hide WellFormed, Compiled;
    var rank := GraphWellFormed(TablesOf(rs), rs.headerRules);
  }
}
