/**
 The IR generator itself: an emitter that walks the rules once, appending to the block
 it stands in, opening blocks, and numbering slots and patterns as it meets them. Each
 method is proved to extend the builder exactly as its function in module `IrEmission`
 says under the final numbering `t`, which the caller names and nobody computes.
 */
module IrGenerator {
  import opened Text
  import opened Ast
  import opened Lowering
  import opened RuntimeCalls
  import opened Semantics
  import opened Numbering
  import opened Fragments
  import opened BlockGraph
  import opened IrEmission
  import opened IrCorrect
  import R = Runtime

  lemma {:induction false} AppendAppend(e: Builder, a: seq<Instr>, b: seq<Instr>)
    requires e.Valid()
    ensures Append(Append(e, a), b) == Append(e, a + b)
  {
    ValuesAppend(a, b);
    assert (e.graph[e.cur] + a) + b == e.graph[e.cur] + (a + b);
    assert Append(Append(e, a), b).graph == Append(e, a + b).graph;
  }

  lemma {:induction false} AppendNone(e: Builder)
    requires e.Valid()
    ensures Append(e, []) == e
  {
    assert e.graph[e.cur] + [] == e.graph[e.cur];
    assert Append(e, []).graph == e.graph;
  }

  lemma {:induction false} LiftAppend(a: seq<Call>, b: seq<Call>)
    ensures Lift(a + b) == Lift(a) + Lift(b)
  {
  }

  /** Calls after calls. */
  lemma {:induction false} LiftedAppend(e: Builder, a: seq<Call>, b: seq<Call>)
    requires e.Valid()
    ensures Append(Append(e, Lift(a)), Lift(b)) == Append(e, Lift(a + b))
  {
    hide Append;
    AppendAppend(e, Lift(a), Lift(b));
    LiftAppend(a, b);
  }

  lemma {:induction false} LiftedNone(e: Builder)
    requires e.Valid()
    ensures Append(e, Lift([])) == e
  {
    hide Append;
    AppendNone(e);
    assert Lift([]) == [];
  }

  lemma {:induction false} GroupsNext(e: Builder, t: Tables, rule: string, n: nat)
    requires e.Valid()
    ensures Append(e, Lift(GroupsCode(t, e.next, rule, n))).next == e.next + n
  {
    hide GroupsCode;
    GroupsNumbered(t, e.next, rule, n, {});
    LiftedValues(GroupsCode(t, e.next, rule, n));
  }

  lemma {:induction false} ValueNext(e: Builder, t: Tables, v: Value)
    requires e.Valid()
    ensures Append(e, Lift(ValueCode(t, e.next, v))).next == e.next + ValueTemps(v)
  {
    hide ValueCode, ValueTemps;
    ValueNumbered(t, e.next, v, {});
    LiftedValues(ValueCode(t, e.next, v));
  }

  lemma {:induction false} AskNext(e: Builder)
    requires e.Valid()
    ensures Append(e, [Run(Ask(e.next, QMethod))]).next == e.next + 1
  {
    ValuesOne(Run(Ask(e.next, QMethod)));
  }

  lemma {:induction false} MethodCodeNext(e: Builder, verb: nat, methods: seq<string>, k: nat)
    requires e.Valid() && k < |methods|
    ensures Append(e, MethodCode(verb, methods, k)).next == e.next + 3
  {
    var code := MethodCode(verb, methods, k);
    ValuesOne(code[0]);
    ValuesOne(code[1]);
    ValuesOne(code[2]);
    ValuesAppend([code[0]], [code[1]]);
    ValuesAppend([code[0]] + [code[1]], [code[2]]);
    assert code == [code[0]] + [code[1]] + [code[2]];
  }

  lemma {:induction false} EmptyGuard(t: Tables, e: Builder, hr: HeaderRule, cont: nat)
    requires e.Valid() && hr.matchValue.Empty()
    ensures forall subject :: EmitMatch(t, e, hr.comparison, AnyValue, hr.matchValue, subject, cont) == e
    ensures forall u :: ScanGuard(u, hr.comparison, hr.matchValue) == u
  {
  }

  lemma {:induction false} NoElements(t: Tables, e: Builder, u: Tables, hr: HeaderRule)
    requires e.Valid()
    ensures EmitElements(t, e, hr, 0) == e && ScanElements(u, hr, 0) == u
  {
  }

  class Emitter {
    var blocks: Graph
    var cur: nat
    var next: nat
    var rejectBb: Option<nat>
    var slots: map<string, nat>
    var regexes: seq<R.RegexEntry>
    ghost var avail: seq<set<Register>>
    ghost var rank: seq<Option<nat>>
    ghost var clock: nat

    ghost function View(): Builder
      reads this
    {
      Builder(blocks, cur, next, rejectBb, avail, rank, clock)
    }

    function Tab(): Tables
      reads this`slots, this`regexes
    {
      Tables(slots, regexes)
    }

    /** In working order: a valid builder and a dense numbering that `t` will keep. */
    ghost predicate Going()
      reads this
    {
      View().Valid() && Dense(Tab())
    }

    method AddRegex(pattern: string, ci: bool, ghost t: Tables) returns (id: nat)
      requires Extends(Semantics.AddRegex(Tab(), R.RegexEntry(pattern, if ci then 1 else 0)), t)
      modifies this`regexes
      ensures Tab() == Semantics.AddRegex(old(Tab()), R.RegexEntry(pattern, if ci then 1 else 0))
      ensures id == RegexOf(t, R.RegexEntry(pattern, if ci then 1 else 0))
    {
      var flags := if ci then 1 else 0;
      ghost var e := R.RegexEntry(pattern, flags);
      RegexAbsorbed(Tab(), e, t);
      var i := 0;
      while i < |regexes|
        invariant i <= |regexes| && forall k :: 0 <= k < i ==> regexes[k] != e
      {
        if regexes[i].pattern == pattern && regexes[i].flags == flags {
          RegexIndexIs(regexes, e, i);
          return i;
        }
        i := i + 1;
      }
      regexes := regexes + [R.RegexEntry(pattern, flags)];
      RegexIndexIs(regexes, e, i);
      return |regexes| - 1;
    }

    method SlotFor(name: string, ghost t: Tables) returns (id: nat)
      requires Extends(AddSlot(Tab(), name), t)
      modifies this`slots
      ensures Tab() == AddSlot(old(Tab()), name) && id == SlotOf(t, name)
    {
      SlotAbsorbed(Tab(), name, t);
      if name !in slots {
        slots := slots[name := |slots|];
      }
      id := slots[name];
    }

    /** A call or other instruction at the insertion point. */
    method Emit(i: Instr)
      requires View().Valid()
      modifies this`blocks, this`next
      ensures View() == Append(old(View()), [i])
    {
      ValuesOne(i);
      blocks := blocks[cur := blocks[cur] + [i]];
      next := next + if Defines(i) != {} then 1 else 0;
    }

    /** A call at the insertion point; a query defines the next register. */
    method EmitCall(c: Call)
      requires View().Valid()
      modifies this`blocks, this`next
      ensures View() == Append(old(View()), Lift([c]))
    {
      assert Lift([c]) == [Run(c)];
      Emit(Run(c));
    }

    method Block(ghost known: set<Register>) returns (b: nat)
      requires View().Valid()
      modifies this`blocks, this`avail, this`rank
      ensures View() == NewBlock(old(View()), known) && b == old(|blocks|)
    {
      b := |blocks|;
      blocks := blocks + [[]];
      avail, rank := avail + [known], rank + [None];
    }

    method SetInsertPoint(b: nat)
      requires View().Valid() && b < |blocks| && rejectBb != Some(b)
      modifies this`cur, this`rank, this`clock
      ensures View() == SetInsert(old(View()), b)
    {
      cur := b;
      rank, clock := rank[b := Some(clock)], clock + 1;
    }

    method Guard(bit: nat, skip: nat)
      requires View().Valid()
      modifies this`blocks, this`next, this`avail, this`rank, this`cur, this`clock
      ensures View() == Guarded(old(View()), bit, skip)
    {
      var ok := Block(View().Known());
      Emit(CondBr(bit, ok, skip));
      SetInsertPoint(ok);
    }

    method RejectBlock() returns (b: nat)
      requires View().Valid()
      modifies this`blocks, this`avail, this`rank, this`rejectBb
      ensures View() == WithReject(old(View())) && View().reject == Some(b)
    {
      if rejectBb.None? {
        b := Block({});
        rejectBb := Some(b);
      }
      b := rejectBb.value;
    }

    /** A runtime test, compared with zero and inverted on demand. */
    method EmitTestBit(test: Test, negated: bool) returns (bit: nat)
      requires View().Valid()
      modifies this`blocks, this`next
      ensures View() == Append(old(View()), TestCode(old(next), test, negated)) && bit == TestBit(old(next), negated)
    {
      hide Append, RuntimeCalls.Uses;
      ghost var e := View();
      var word := next;
      var a, b, c := Check(word, test), NotZero(word + 1, word), Not(word + 2, word + 1);
      Emit(a);
      Emit(b);
      AppendAppend(e, [a], [b]);
      assert [a] + [b] == [a, b];
      bit := word + 1;
      if negated {
        Emit(c);
        AppendAppend(e, [a, b], [c]);
        bit := word + 2;
      } else {
        assert TestCode(word, test, negated) == [a, b];
      }
    }

    /** The runtime query a reference lowers to. */
    method LowerRef(ref: ValueRef, ghost t: Tables) returns (q: Query)
      requires Extends(ScanSegment(Tab(), Reference(ref)), t)
      modifies this`slots
      ensures Tab() == ScanSegment(old(Tab()), Reference(ref)) && q == RefQuery(t, ref)
    {
      match ref.kind
      case Variable => q := QVar(VariableId(ref.name));
      case Capture => q := QCapture(CaptureNumber(ref));
      case RuleRef =>
        var slot := SlotFor(CaptureSlotKey(RefBaseName(ref.name), CaptureNumber(ref)), t);
        q := QLoad(slot);
    }

    method EmitSegment(seg: Segment, ghost t: Tables)
      requires Going() && Extends(ScanSegment(Tab(), seg), t)
      modifies this`blocks, this`next, this`slots
      ensures Tab() == ScanSegment(old(Tab()), seg)
      ensures View() == Append(old(View()), Lift(SegmentCode(t, seg)))
    {
      hide Append, Dense, Extends;
      LiftedNone(View());
      match seg
      case Literal(text) =>
        if text != "" {
          EmitCall(Do(DoAppendLit(text)));
        }
      case Reference(ref) =>
        var q := LowerRef(ref, t);
        match q
        case QVar(id) => EmitCall(Do(DoAppendVar(id)));
        case QCapture(index) => EmitCall(Do(DoAppendCapture(index)));
        case QLoad(slot) => EmitCall(Do(DoAppendSlot(slot)));
        case _ =>
    }

    method BuildValue(segments: seq<Segment>, ghost t: Tables)
      requires Going() && Extends(ScanSegments(Tab(), segments), t)
      modifies this`blocks, this`next, this`slots
      ensures Tab() == ScanSegments(old(Tab()), segments)
      ensures View() == Append(old(View()), Lift(SegmentsCode(t, segments)))
    {
      hide Append, Dense, Extends, SegmentCode, ScanSegment;
      ghost var e, u := View(), Tab();
      LiftedNone(e);
      for i := 0 to |segments|
        invariant Tab() == ScanSegments(u, segments[..i]) && Dense(Tab())
        invariant View().Valid() && View() == Append(e, Lift(SegmentsCode(t, segments[..i])))
      {
        SegmentCodeStep(t, segments, i);
        SegmentCodeStep(u, segments, i);
        SegmentsPrefix(u, segments, i + 1);
        ExtendsTrans(ScanSegments(u, segments[..i + 1]), ScanSegments(u, segments), t);
        LiftedAppend(e, SegmentsCode(t, segments[..i]), SegmentCode(t, segments[i]));
        EmitSegment(segments[i], t);
      }
      assert segments[..|segments|] == segments;
    }

    method EmitValue(v: Value, ghost t: Tables) returns (op: Operand)
      requires Going() && Extends(ScanValue(Tab(), v), t)
      modifies this`blocks, this`next, this`slots
      ensures Tab() == ScanValue(old(Tab()), v) && op == ValueOperand(old(next), v)
      ensures View() == Append(old(View()), Lift(ValueCode(t, old(next), v)))
    {
      hide Append, Dense, Extends, SegmentsCode;
      ghost var e := View();
      LiftedNone(e);
      if v.Empty() { return Lit(""); }
      if v.IsPureLiteral() { return Lit(v.LiteralText()); }
      if v.IsSingleRef() {
        SingleScan(Tab(), v.segments[0]);
        assert v.segments == [v.segments[0]];
        var q := LowerRef(v.segments[0].ref, t);
        op := Use(next);
        EmitCall(Ask(next, q));
        return;
      }
      ghost var reset, built := [Do(DoReset)], SegmentsCode(t, v.segments);
      EmitCall(Do(DoReset));
      BuildValue(v.segments, t);
      LiftedAppend(e, reset, built);
      SegmentsNumbered(t, v.segments, 0, {});
      BuiltNext(e, t, v.segments);
      op := Use(next);
      EmitCall(Ask(next, QFinish));
      LiftedAppend(e, reset + built, [Ask(e.next, QFinish)]);
    }

    /** The matcher a guard selects, with the pattern's id when that is the regex matcher. */
    method SelectMatcher(cmp: ComparisonType, mvt: MatchValType, pattern: string, ghost t: Tables)
      returns (matchType: nat, regexId: nat)
      requires IsPattern(cmp) ==> Extends(Semantics.AddRegex(Tab(), EntryFor(cmp, pattern)), t)
      modifies this`regexes
      ensures Tab() == if IsPattern(cmp) then Semantics.AddRegex(old(Tab()), EntryFor(cmp, pattern)) else old(Tab())
      ensures matchType == MatchTypeOf(cmp, mvt, pattern)
      ensures regexId == if IsPattern(cmp) then RegexOf(t, EntryFor(cmp, pattern)) else 0
    {
      regexId := 0;
      if IsPattern(cmp) {
        matchType := MATCH_REGEX;
        regexId := AddRegex(pattern, IsCaseInsensitive(cmp), t);
      } else {
        match mvt
        case Ip => matchType := IpMatchType(pattern);
        case Fqdn => matchType := MATCH_FQDN;
        case AnyValue => matchType := if IsCaseInsensitive(cmp) then MATCH_EXACT_CI else MATCH_EXACT;
      }
    }

    method EmitMatchGuard(cmp: ComparisonType, mvt: MatchValType, mv: Value, subject: Operand, skip: nat, ghost t: Tables)
      requires Going() && Extends(ScanGuard(Tab(), cmp, mv), t)
      modifies this`blocks, this`next, this`regexes, this`avail, this`rank, this`cur, this`clock
      ensures Tab() == ScanGuard(old(Tab()), cmp, mv)
      ensures View() == EmitMatch(t, old(View()), cmp, mvt, mv, subject, skip)
    {
      hide Append, Dense, Extends, Guarded, MatchTypeOf, RegexOf, Semantics.AddRegex;
      if mv.Empty() { return; }
      if !mv.IsRegexLiteral() && !mv.IsPureLiteral() { return; }
      var pattern := if mv.IsPureLiteral() then mv.LiteralText() else mv.raw;
      var matchType, regexId := SelectMatcher(cmp, mvt, pattern, t);
      var bit := EmitTestBit(MatchTest(matchType, subject, pattern, regexId), mv.negated);
      Guard(bit, skip);
    }

    /** A log or reject text. */
    method EmitText(v: Value, name: string, ghost t: Tables) returns (op: Operand)
      requires Going() && Extends(ScanValue(Tab(), v), t)
      modifies this`blocks, this`next, this`slots
      ensures Tab() == ScanValue(old(Tab()), v) && op == TextOperand(old(next), v, name)
      ensures View() == Append(old(View()), Lift(ValueCode(t, old(next), v)))
    {
      hide Append, Dense, Extends, ScanSegments, SegmentsCode;
      LiftedNone(View());
      if v.Empty() {
        op := Lit(name);
      } else {
        op := EmitValue(v, t);
      }
    }

    method StoreGroups(rule: string, n: nat, ghost t: Tables)
      requires Going() && Extends(ScanCaptures(Tab(), rule, n), t)
      modifies this`blocks, this`next, this`slots
      ensures Tab() == ScanCaptures(old(Tab()), rule, n)
      ensures View() == Append(old(View()), Lift(GroupsCode(t, old(next), rule, n)))
    {
      hide Append, Dense, Extends, SlotOf, CaptureSlotKey, GroupsCode, ScanCaptures;
      ghost var e, u := View(), Tab();
      GroupsNone(t, u, e.next, rule);
      LiftedNone(e);
      for g := 0 to n
        invariant Tab() == ScanCaptures(u, rule, g) && Dense(Tab())
        invariant View().Valid() && View() == Append(e, Lift(GroupsCode(t, e.next, rule, g)))
      {
        GroupsStep(t, u, e.next, rule, g);
        CapturesPrefix(u, rule, n, g + 1);
        ExtendsTrans(ScanCaptures(u, rule, g + 1), ScanCaptures(u, rule, n), t);
        GroupsNext(e, t, rule, g);
        var slot := SlotFor(CaptureSlotKey(rule, g), t);
        ghost var f := View();
        ghost var ask, store := Ask(next, QCapture(g)), Do(DoStore(slot, Use(next)));
        var temp := next;
        EmitCall(Ask(temp, QCapture(g)));
        EmitCall(Do(DoStore(slot, Use(temp))));
        LiftedAppend(f, [ask], [store]);
        assert [ask] + [store] == GroupCode(t, e.next, rule, g);
        LiftedAppend(e, GroupsCode(t, e.next, rule, g), GroupCode(t, e.next, rule, g));
      }
    }

    method EmitStore(hr: HeaderRule, idx: nat, hv: Option<Operand>, ghost t: Tables)
      requires Going() && Extends(ScanStore(Tab(), hr, idx), t)
      modifies this`blocks, this`next, this`slots
      ensures Tab() == ScanStore(old(Tab()), hr, idx)
      ensures View() == Append(old(View()), Lift(StoreCode(t, old(next), hr, idx, Lit(hr.headerName), hv)))
    {
      hide Append, Dense, Extends, GroupsCode, ScanCaptures, SlotOf, CapturingGroups;
      var rule := if hr.name == "" then "rule" + Decimal(idx) else hr.name;
      if IsPattern(hr.comparison) {
        var pattern := if hr.matchValue.IsPureLiteral() then hr.matchValue.LiteralText() else hr.matchValue.raw;
        var groups := CountCapturingGroups(pattern);
        StoreGroups(rule, groups + 1, t);
      } else {
        var slot := SlotFor(rule, t);
        if hv.Some? {
          EmitCall(Do(DoStore(slot, hv.value)));
        } else {
          ghost var e := View();
          var temp := next;
          EmitCall(Ask(temp, QHeader(Lit(hr.headerName))));
          EmitCall(Do(DoStore(slot, Use(temp))));
          LiftedAppend(e, [Ask(temp, QHeader(Lit(hr.headerName)))], [Do(DoStore(slot, Use(temp)))]);
          assert [Ask(temp, QHeader(Lit(hr.headerName)))] + [Do(DoStore(slot, Use(temp)))] ==
                 [Ask(temp, QHeader(Lit(hr.headerName))), Do(DoStore(slot, Use(temp)))];
        }
      }
    }

    /** The code of a value, then one action on it. */
    method EmitThen(a: Action, ghost e: Builder, ghost code: seq<Call>)
      requires e.Valid() && View() == Append(e, Lift(code)) && View().Valid()
      modifies this`blocks, this`next
      ensures View() == Append(e, Lift(code + [Do(a)]))
    {
      hide Append;
      LiftedAppend(e, code, [Do(a)]);
      EmitCall(Do(a));
    }

    /** Everything a header-level action emits short of the jump of a reject. */
    method EmitHeaderAction(hr: HeaderRule, idx: nat, hv: Option<Operand>, ghost t: Tables) returns (terminated: bool)
      requires Going() && Extends(ScanHeaderAction(Tab(), hr, idx), t)
      modifies this`blocks, this`next, this`slots
      ensures Tab() == ScanHeaderAction(old(Tab()), hr, idx) && (terminated <==> hr.action.RejectHeader?)
      ensures View() == Append(old(View()), Lift(HeaderCode(t, old(next), hr, idx, Lit(hr.headerName), hv)))
    {
      hide Append, Dense, Extends, ValueCode, StoreCode, ScanValue, ScanStore, ValueOperand, TextOperand;
      ghost var e := View();
      LiftedNone(e);
      var name := Lit(hr.headerName);
      terminated := false;
      match hr.action
      case AddHeader =>
        var v := EmitValue(hr.newValue, t);
        EmitThen(DoAdd(name, v), e, ValueCode(t, e.next, hr.newValue));
      case ReplaceHeader =>
        EmitReplace(hr, t);
      case Manipulate =>
        EmitReplace(hr, t);
      case Delete =>
        EmitCall(Do(DoDelete(name)));
      case DeleteHeader =>
        EmitCall(Do(DoDelete(name)));
      case StoreHeader =>
        EmitStore(hr, idx, hv, t);
      case LogHeader =>
        var text := EmitText(hr.newValue, hr.name, t);
        EmitThen(DoLog(text), e, ValueCode(t, e.next, hr.newValue));
      case RejectHeader =>
        var text := EmitText(hr.newValue, hr.name, t);
        EmitThen(DoReject(403, text), e, ValueCode(t, e.next, hr.newValue));
        terminated := true;
      case _ =>
    }

    method EmitReplace(hr: HeaderRule, ghost t: Tables)
      requires Going() && Extends(if SetsHeader(hr) then ScanValue(Tab(), hr.newValue) else Tab(), t)
      modifies this`blocks, this`next, this`slots
      ensures Tab() == if SetsHeader(hr) then ScanValue(old(Tab()), hr.newValue) else old(Tab())
      ensures View() == Append(old(View()), Lift(SetCode(t, old(next), hr, Lit(hr.headerName))))
    {
      hide Append, Dense, Extends, ValueCode, ScanValue, ValueOperand;
      ghost var e := View();
      LiftedNone(e);
      if !hr.newValue.Empty() && hr.elementRules == [] {
        var v := EmitValue(hr.newValue, t);
        EmitThen(DoSet(Lit(hr.headerName), v), e, ValueCode(t, e.next, hr.newValue));
      }
    }

    method JumpReject()
      requires View().Valid()
      modifies this`blocks, this`next, this`avail, this`rank, this`rejectBb
      ensures View() == JumpToReject(old(View()))
    {
      var b := RejectBlock();
      Emit(Br(b));
    }

    method ReadHeader(header: string, elem: nat) returns (hv: Operand, ev: Operand)
      requires View().Valid()
      modifies this`blocks, this`next
      ensures View() == Append(old(View()), Lift(ReadCalls(old(next), Lit(header), elem)))
      ensures hv == Use(old(next)) && ev == Use(ReadTemp(old(next), elem))
    {
      hide Append;
      ghost var e := View();
      var r := next;
      hv, ev := Use(r), Use(r);
      EmitCall(Ask(r, QHeader(Lit(header))));
      if elem != URI_WHOLE {
        ev := Use(r + 1);
        EmitCall(Ask(r + 1, QUriGet(hv, elem)));
        LiftedAppend(e, [Ask(r, QHeader(Lit(header)))], [Ask(r + 1, QUriGet(hv, elem))]);
      } else {
        assert ReadCalls(r, Lit(header), elem) == [Ask(r, QHeader(Lit(header)))];
      }
    }

    /** A rebuilt element, or the whole value, written back into the header. */
    method EmitWrite(header: string, hv: Operand, elem: nat, text: Operand)
      requires View().Valid()
      modifies this`blocks, this`next
      ensures View() == Append(old(View()), Lift(WriteCode(old(next), Lit(header), hv, elem, text)))
    {
      hide Append;
      ghost var e := View();
      if elem == URI_WHOLE {
        EmitCall(Do(DoSet(Lit(header), text)));
      } else {
        var temp := next;
        EmitCall(Ask(temp, QUriSet(hv, elem, text)));
        EmitCall(Do(DoSet(Lit(header), Use(temp))));
        LiftedAppend(e, [Ask(temp, QUriSet(hv, elem, text))], [Do(DoSet(Lit(header), Use(temp)))]);
        assert [Ask(temp, QUriSet(hv, elem, text))] + [Do(DoSet(Lit(header), Use(temp)))] ==
               [Ask(temp, QUriSet(hv, elem, text)), Do(DoSet(Lit(header), Use(temp)))];
      }
    }

    /** The code of an element action; true when a reject still has to jump. */
    method EmitElementAction(hr: HeaderRule, er: ElementRule, elem: nat, hv: Operand, ev: Operand, ghost t: Tables)
      returns (terminated: bool)
      requires Going() && Extends(ScanElementAction(Tab(), hr, er), t)
      modifies this`blocks, this`next, this`slots
      ensures Tab() == ScanElementAction(old(Tab()), hr, er) && (terminated <==> er.action.RejectElement?)
      ensures View() == Append(old(View()), Lift(ElementCode(t, old(next), hr, er, Lit(hr.headerName), elem, hv, ev)))
    {
      hide Append, Dense, Extends, ValueCode, ScanValue, ValueOperand, TextOperand, WriteCode, SlotOf;
      ghost var e := View();
      LiftedNone(e);
      terminated := false;
      match er.action
      case ReplaceElement =>
        var nv := EmitValue(er.newValue, t);
        ghost var code := ValueCode(t, e.next, er.newValue);
        ValueNext(e, t, er.newValue);
        EmitWrite(hr.headerName, hv, elem, nv);
        LiftedAppend(e, code, WriteCode(e.next + ValueTemps(er.newValue), Lit(hr.headerName), hv, elem, nv));
      case DeleteElement =>
        if elem == URI_WHOLE {
          EmitCall(Do(DoDelete(Lit(hr.headerName))));
        } else {
          EmitWrite(hr.headerName, hv, elem, Lit(""));
        }
      case StoreElement =>
        var slot := SlotFor(if er.name == "" then hr.name + ".el" else er.name, t);
        EmitCall(Do(DoStore(slot, ev)));
      case RejectElement =>
        var text := EmitText(er.newValue, er.name, t);
        EmitThen(DoReject(403, text), e, ValueCode(t, e.next, er.newValue));
        terminated := true;
      case _ =>
    }

    method EmitElementRule(hr: HeaderRule, er: ElementRule, ghost t: Tables)
      requires Going() && Extends(ScanElement(Tab(), hr, er), t)
      modifies this
      ensures Tab() == ScanElement(old(Tab()), hr, er)
      ensures View() == EmitElement(t, old(View()), hr, er)
    {
      hide Append, Dense, Extends, NewBlock, EmitMatch, ScanGuard, ScanElementAction, ElementCode, ReadCalls, JumpToReject;
      hide SetInsert;
      var elem := UriElement(er.kind);
      if elem.None? { return; }
      ghost var e, u := View(), Tab();
      ghost var g := ScanGuard(u, er.comparison, er.matchValue);
      ScanGuardOk(u, er.comparison, er.matchValue);
      ScanElementActionOk(g, hr, er);
      ExtendsTrans(g, ScanElementAction(g, hr, er), t);
      NewNext(e);
      var cont := Block(View().Known());
      var hv, ev := ReadHeader(hr.headerName, elem.value);
      EmitMatchGuard(er.comparison, er.matchValType, er.matchValue, ev, cont, t);
      var terminated := EmitElementAction(hr, er, elem.value, hv, ev, t);
      if terminated {
        JumpReject();
      } else {
        Emit(Br(cont));
      }
      ElementShape(t, e, hr, er);
      SetInsertPoint(cont);
    }

    method EmitElementRules(hr: HeaderRule, ghost t: Tables)
      requires Going() && Extends(ScanElements(Tab(), hr, |hr.elementRules|), t)
      modifies this
      ensures Going() && Tab() == ScanElements(old(Tab()), hr, |hr.elementRules|)
      ensures View() == EmitElements(t, old(View()), hr, |hr.elementRules|)
    {
      hide Dense, Extends, ScanElement, EmitElement;
      ghost var e, u := View(), Tab();
      for i := 0 to |hr.elementRules|
        invariant Going() && Tab() == ScanElements(u, hr, i) && View() == EmitElements(t, e, hr, i)
      {
        ElementsPrefix(u, hr, |hr.elementRules|, i + 1);
        ExtendsTrans(ScanElements(u, hr, i + 1), ScanElements(u, hr, |hr.elementRules|), t);
        EmitElementRule(hr, hr.elementRules[i], t);
      }
    }

    method EmitTypeGuard(hr: HeaderRule, cont: nat)
      requires View().Valid()
      modifies this`blocks, this`next, this`avail, this`rank, this`cur, this`clock
      ensures View() == EmitType(old(View()), hr, cont)
    {
      hide Append, Guarded, TestCode;
      if hr.msgType.Request? {
        var bit := EmitTestBit(IsRequestTest, false);
        Guard(bit, cont);
      } else if hr.msgType.Reply? {
        var bit := EmitTestBit(IsRequestTest, true);
        Guard(bit, cont);
      }
    }

    /** One listed method folded into the disjunction `acc` so far. */
    method EmitMethodTest(verb: nat, methods: seq<string>, k: nat, acc: BitOperand) returns (r: BitOperand)
      requires View().Valid() && k < |methods| && next == verb + 1 + 3 * k && acc == MethodAcc(verb, k)
      modifies this`blocks, this`next
      ensures View() == Append(old(View()), MethodCode(verb, methods, k))
      ensures next == verb + 1 + 3 * (k + 1) && r == MethodAcc(verb, k + 1)
    {
      hide Append, RuntimeCalls.Uses;
      ghost var e := View();
      var x := next;
      var a, b, c := Check(x, StrEqTest(Use(verb), methods[k])), NotZero(x + 1, x), Or(x + 2, acc, x + 1);
      Emit(a);
      Emit(b);
      Emit(c);
      AppendAppend(e, [a], [b]);
      AppendAppend(e, [a] + [b], [c]);
      assert [a] + [b] + [c] == MethodCode(verb, methods, k);
      MethodCodeNext(e, verb, methods, k);
      r := Bit(x + 2);
    }

    method EmitMethodGuard(hr: HeaderRule, cont: nat)
      requires View().Valid()
      modifies this`blocks, this`next, this`avail, this`rank, this`cur, this`clock
      ensures View() == EmitMethods(old(View()), hr, cont)
    {
      hide Append, Guarded, MethodCode;
      if !hr.HasMethodFilter() { return; }
      ghost var e := View();
      var verb := next;
      var ask := Run(Ask(verb, QMethod));
      AskNext(e);
      Emit(ask);
      var acc := Const(false);
      AppendNone(View());
      for k := 0 to |hr.methods|
        invariant View().Valid() && View() == Append(Append(e, [ask]), MethodsCode(verb, hr.methods, k))
        invariant next == verb + 1 + 3 * k && acc == MethodAcc(verb, k)
      {
        AppendAppend(Append(e, [ask]), MethodsCode(verb, hr.methods, k), MethodCode(verb, hr.methods, k));
        acc := EmitMethodTest(verb, hr.methods, k, acc);
      }
      AppendAppend(e, [ask], MethodsCode(verb, hr.methods, |hr.methods|));
      Guard(acc.reg, cont);
    }

    method EmitGuards(hr: HeaderRule, cont: nat, ghost t: Tables) returns (hv: Option<Operand>)
      requires Going() && Extends(ScanGuard(Tab(), hr.comparison, hr.matchValue), t)
      modifies this`blocks, this`next, this`regexes, this`avail, this`rank, this`cur, this`clock
      ensures Tab() == ScanGuard(old(Tab()), hr.comparison, hr.matchValue)
      ensures
        var f := EmitFilters(old(View()), hr, cont);
        View() == EmitHeaderGuard(t, f, hr, cont) && hv == Fetched(hr, f.next)
    {
      hide Append, Dense, Extends, EmitType, EmitMethods, EmitMatch, Semantics.AddRegex;
      EmitTypeGuard(hr, cont);
      EmitMethodGuard(hr, cont);
      hv := None;
      if !hr.matchValue.Empty() || hr.action.StoreHeader? {
        hv := Some(Use(next));
        Emit(Run(Ask(next, QHeader(Lit(hr.headerName)))));
      }
      if !hr.matchValue.Empty() {
        EmitMatchGuard(hr.comparison, AnyValue, hr.matchValue, hv.value, cont, t);
      } else {
        EmptyGuard(t, View(), hr, cont);
      }
    }

    method EmitHeaderRule(hr: HeaderRule, idx: nat, ghost t: Tables)
      requires Going() && Extends(ScanRule(Tab(), hr, idx), t)
      modifies this
      ensures Tab() == ScanRule(old(Tab()), hr, idx)
      ensures View() == EmitRule(t, old(View()), hr, idx)
    {
      hide Append, Dense, Extends, NewBlock, EmitFilters, EmitHeaderGuard, ScanGuard, ScanHeaderAction, HeaderCode;
      hide JumpToReject, SetInsert, EmitElements, ScanElements;
      ghost var e, u := View(), Tab();
      ghost var g := ScanGuard(u, hr.comparison, hr.matchValue);
      ghost var a := ScanHeaderAction(g, hr, idx);
      RuleTables(u, hr, idx, t);
      var cont := Block(View().Known());
      var hv := EmitGuards(hr, cont, t);
      var terminated := EmitHeaderAction(hr, idx, hv, t);
      if !terminated {
        NoElements(t, View(), a, hr);
        if hr.elementRules != [] {
          EmitElementRules(hr, t);
        }
        Emit(Br(cont));
      } else {
        JumpReject();
      }
      RuleShape(t, e, hr, idx);
      RuleFollows(t, e, hr, idx);
      SetInsertPoint(cont);
    }

    constructor ()
      ensures View() == Fresh() && Tab() == NO_TABLES
    {
      blocks, cur, next, rejectBb := [[], []], ENTRY, 0, None;
      slots, regexes := map[], [];
      avail, rank, clock := [{}, {}], [Some(0), None], 1;
    }

    method EmitHeaderRules(rs: Ruleset)
      requires View() == Fresh() && Tab() == NO_TABLES
      modifies this
      ensures Tab() == TablesOf(rs) && View() == Emitted(TablesOf(rs), rs.headerRules)
    {
      hide Dense, Extends, EmitRule, ScanRule;
      ghost var t, rules := TablesOf(rs), rs.headerRules;
      NoTablesDense();
      for i := 0 to |rs.headerRules|
        invariant Going() && Tab() == ScanRules(NO_TABLES, rules, i) && View() == EmitRules(t, Fresh(), rules, i)
      {
        RulesPrefix(rules, |rules|, i + 1);
        EmitHeaderRule(rs.headerRules[i], i, t);
      }
      EmittedIs(t, rules);
    }

    /** Emits `hmr_apply` for a ruleset: the compiled graph, and the numbering the module publishes. */
    method Generate(rs: Ruleset) returns (graph: Graph, info: R.ModuleInfo)
      requires View() == Fresh() && Tab() == NO_TABLES
      modifies this
      ensures graph == Compiled(TablesOf(rs), rs.headerRules)
      ensures Tab() == TablesOf(rs)
      ensures info == R.ModuleInfo(|TablesOf(rs).slots|, TablesOf(rs).regexes)
    {
      hide Append, Emitted, ScanRules;
      EmitHeaderRules(rs);
      EmittedShape(TablesOf(rs), rs.headerRules);
      Emit(Br(RET_OK));
      SetInsertPoint(RET_OK);
      Emit(Ret(Continue));
      if rejectBb.Some? {
        var b := rejectBb.value;
        rejectBb := None;
        SetInsertPoint(b);
        Emit(Ret(Rejected));
      }
      graph := blocks;
      info := R.ModuleInfo(|slots|, regexes);
    }
  }

  /** Building a value defines no register until it is finished. */
  lemma {:induction false} BuiltNext(e: Builder, t: Tables, segments: seq<Segment>)
    requires e.Valid()
    ensures Append(e, Lift([Do(DoReset)] + SegmentsCode(t, segments))).next == e.next
  {
    hide SegmentsCode;
    SegmentsNumbered(t, segments, e.next, {});
    NumberedOne(Do(DoReset), e.next, {});
    NumberedAppend([Do(DoReset)], SegmentsCode(t, segments), e.next, {}, {});
    LiftedValues([Do(DoReset)] + SegmentsCode(t, segments));
  }
}
