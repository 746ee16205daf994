/**
 The C++ generator itself: an emitter that appends statements to the closure it is in,
 opens and closes closures, and numbers temporaries, slots and patterns as it meets them.
 Statements hold strings by value; how the text spells them is the matter of CppLiterals.
 */
module CppGenerator {
  import opened Text
  import opened Ast
  import opened Lowering
  import opened RuntimeCalls
  import opened Semantics
  import opened Numbering
  import opened Fragments
  import opened CppClosures
  import opened CppEmission
  import R = Runtime

  lemma {:induction false} WrapAppend(a: seq<Call>, b: seq<Call>)
    ensures Wrap(a + b) == Wrap(a) + Wrap(b)
  {
  }

  lemma {:induction false} WrapNone(body: seq<Stmt>)
    ensures body == body + Wrap([])
  {
  }

  class CppEmitter {
    var outer: seq<seq<Stmt>>
    var body: seq<Stmt>
    var temp: nat
    var slots: map<string, nat>
    var regexes: seq<R.RegexEntry>

    function Tab(): Tables
      reads this`slots, this`regexes
    {
      Tables(slots, regexes)
    }

    method AddRegex(pattern: string, ci: bool, ghost t: Tables) returns (id: nat)
      requires Extends(Semantics.AddRegex(Tab(), R.RegexEntry(pattern, if ci then 1 else 0)), t)
      modifies this`regexes
      ensures Tab() == Semantics.AddRegex(old(Tab()), R.RegexEntry(pattern, if ci then 1 else 0))
      ensures id == RegexOf(t, R.RegexEntry(pattern, if ci then 1 else 0))
    {
      var flags := if ci then 1 else 0;
      ghost var e := R.RegexEntry(pattern, flags);
      RegexAbsorbed(Tab(), e, t);
      var i := 0;
      while i < |regexes|
        invariant i <= |regexes| && forall k :: 0 <= k < i ==> regexes[k] != e
      {
        if regexes[i].pattern == pattern && regexes[i].flags == flags {
          RegexIndexIs(regexes, e, i);
          return i;
        }
        i := i + 1;
      }
      regexes := regexes + [R.RegexEntry(pattern, flags)];
      RegexIndexIs(regexes, e, i);
      return |regexes| - 1;
    }

    method SlotFor(name: string, ghost t: Tables) returns (id: nat)
      requires Extends(AddSlot(Tab(), name), t)
      modifies this`slots
      ensures Tab() == AddSlot(old(Tab()), name) && id == SlotOf(t, name)
    {
      SlotAbsorbed(Tab(), name, t);
      if name !in slots {
        slots := slots[name := |slots|];
      }
      id := slots[name];
    }

    method Line(s: Stmt)
      modifies this`body
      ensures body == old(body) + [s]
    {
      body := body + [s];
    }

    /** A call made for its effect. */
    method Act(a: Action)
      modifies this`body
      ensures body == old(body) + Wrap([Do(a)])
    {
      assert Wrap([Do(a)]) == [CallStmt(Do(a))];
      Line(CallStmt(Do(a)));
    }

    /** Declares the next temporary as the answer of a query. */
    method Bind(q: Query) returns (t: nat)
      modifies this`body, this`temp
      ensures body == old(body) + Wrap([Ask(old(temp), q)]) && t == old(temp) && temp == t + 1
    {
      t := temp;
      temp := temp + 1;
      assert Wrap([Ask(t, q)]) == [CallStmt(Ask(t, q))];
      Line(CallStmt(Ask(t, q)));
    }

    /** Statements from here on go into a nested closure. */
    method Open()
      modifies this`outer, this`body
      ensures outer == old(outer) + [old(body)] && body == []
    {
      outer := outer + [body];
      body := [];
    }

    /** Ends the nested closure; the enclosing body calls it. */
    method Close()
      requires outer != []
      modifies this`outer, this`body
      ensures outer == old(outer[..|outer| - 1]) && body == old(outer[|outer| - 1] + [Closure(body)])
    {
      body := outer[|outer| - 1] + [Closure(body)];
      outer := outer[..|outer| - 1];
    }

    method LowerRef(ref: ValueRef, ghost t: Tables) returns (q: Query)
      requires Extends(ScanSegment(Tab(), Reference(ref)), t)
      modifies this`slots
      ensures Tab() == ScanSegment(old(Tab()), Reference(ref)) && q == RefQuery(t, ref)
    {
      match ref.kind
      case Variable => q := QVar(VariableId(ref.name));
      case Capture => q := QCapture(CaptureNumber(ref));
      case RuleRef =>
        var slot := SlotFor(CaptureSlotKey(RefBaseName(ref.name), CaptureNumber(ref)), t);
        q := QLoad(slot);
    }

    method EmitSegment(seg: Segment, ghost t: Tables)
      requires Dense(Tab()) && Extends(ScanSegment(Tab(), seg), t)
      modifies this`body, this`slots
      ensures Tab() == ScanSegment(old(Tab()), seg) && body == old(body) + Wrap(SegmentCode(t, seg))
    {
      hide Dense, Extends;
      match seg
      case Literal(text) =>
        if text != "" {
          Act(DoAppendLit(text));
        }
      case Reference(ref) =>
        var q := LowerRef(ref, t);
        match q
        case QVar(id) => Act(DoAppendVar(id));
        case QCapture(index) => Act(DoAppendCapture(index));
        case QLoad(slot) => Act(DoAppendSlot(slot));
        case _ =>
    }

    method BuildValue(segments: seq<Segment>, ghost t: Tables)
      requires Dense(Tab()) && Extends(ScanSegments(Tab(), segments), t)
      modifies this`body, this`slots
      ensures Tab() == ScanSegments(old(Tab()), segments) && body == old(body) + Wrap(SegmentsCode(t, segments))
    {
      hide Dense, Extends, SegmentCode, ScanSegment;
      ghost var u := Tab();
      for i := 0 to |segments|
        invariant Tab() == ScanSegments(u, segments[..i]) && Dense(Tab())
        invariant body == old(body) + Wrap(SegmentsCode(t, segments[..i]))
      {
        SegmentCodeStep(t, segments, i);
        SegmentCodeStep(u, segments, i);
        SegmentsPrefix(u, segments, i + 1);
        ExtendsTrans(ScanSegments(u, segments[..i + 1]), ScanSegments(u, segments), t);
        WrapAppend(SegmentsCode(t, segments[..i]), SegmentCode(t, segments[i]));
        EmitSegment(segments[i], t);
      }
      assert segments[..|segments|] == segments;
    }

    /** The operand is an inline literal or the temporary bound to the value. */
    method EmitValue(v: Value, ghost t: Tables) returns (op: Operand)
      requires Dense(Tab()) && Extends(ScanValue(Tab(), v), t)
      modifies this`body, this`temp, this`slots
      ensures Tab() == ScanValue(old(Tab()), v) && op == ValueOperand(old(temp), v)
      ensures body == old(body) + Wrap(ValueCode(t, old(temp), v)) && temp == old(temp) + ValueTemps(v)
    {
      hide Dense, Extends, SegmentsCode;
      if v.Empty() { return Lit(""); }
      if v.IsPureLiteral() { return Lit(v.LiteralText()); }
      if v.IsSingleRef() {
        SingleScan(Tab(), v.segments[0]);
        assert v.segments == [v.segments[0]];
        var q := LowerRef(v.segments[0].ref, t);
        var bound := Bind(q);
        return Use(bound);
      }
      ghost var reset, built := [Do(DoReset)], SegmentsCode(t, v.segments);
      Act(DoReset);
      BuildValue(v.segments, t);
      var bound := Bind(QFinish);
      WrapAppend(reset, built);
      WrapAppend(reset + built, [Ask(bound, QFinish)]);
      op := Use(bound);
    }

    method EmitText(v: Value, name: string, ghost t: Tables) returns (op: Operand)
      requires Dense(Tab()) && Extends(ScanValue(Tab(), v), t)
      modifies this`body, this`temp, this`slots
      ensures Tab() == ScanValue(old(Tab()), v) && op == TextOperand(old(temp), v, name)
      ensures body == old(body) + Wrap(ValueCode(t, old(temp), v)) && temp == old(temp) + ValueTemps(v)
    {
      hide Dense, Extends, ScanSegments, SegmentsCode;
      if v.Empty() {
        op := Lit(name);
      } else {
        op := EmitValue(v, t);
      }
    }

    method SelectMatcher(cmp: ComparisonType, mvt: MatchValType, pattern: string, ghost t: Tables)
      returns (matchType: nat, regexId: nat)
      requires IsPattern(cmp) ==> Extends(Semantics.AddRegex(Tab(), EntryFor(cmp, pattern)), t)
      modifies this`regexes
      ensures Tab() == if IsPattern(cmp) then Semantics.AddRegex(old(Tab()), EntryFor(cmp, pattern)) else old(Tab())
      ensures matchType == MatchTypeOf(cmp, mvt, pattern)
      ensures regexId == if IsPattern(cmp) then RegexOf(t, EntryFor(cmp, pattern)) else 0
    {
      regexId := 0;
      if IsPattern(cmp) {
        matchType := MATCH_REGEX;
        regexId := AddRegex(pattern, IsCaseInsensitive(cmp), t);
      } else {
        match mvt
        case Ip => matchType := IpMatchType(pattern);
        case Fqdn => matchType := MATCH_FQDN;
        case AnyValue => matchType := if IsCaseInsensitive(cmp) then MATCH_EXACT_CI else MATCH_EXACT;
      }
    }

    method EmitMatchGuard(cmp: ComparisonType, mvt: MatchValType, mv: Value, subject: Operand, ghost t: Tables)
      requires Dense(Tab()) && Extends(ScanGuard(Tab(), cmp, mv), t)
      modifies this`body, this`regexes
      ensures Tab() == ScanGuard(old(Tab()), cmp, mv)
      ensures body == old(body) + MatchPart(t, cmp, mvt, mv, subject)
    {
      hide Dense, Extends, MatchTypeOf, RegexOf, Semantics.AddRegex;
      if mv.Empty() { return; }
      if !mv.IsRegexLiteral() && !mv.IsPureLiteral() { return; }
      var pattern := if mv.IsPureLiteral() then mv.LiteralText() else mv.raw;
      var matchType, regexId := SelectMatcher(cmp, mvt, pattern, t);
      Line(SkipIf(MatchTest(matchType, subject, pattern, regexId), mv.negated));
    }

    method StoreGroups(rule: string, n: nat, ghost t: Tables)
      requires Dense(Tab()) && Extends(ScanCaptures(Tab(), rule, n), t)
      modifies this`body, this`temp, this`slots
      ensures Tab() == ScanCaptures(old(Tab()), rule, n)
      ensures body == old(body) + Wrap(GroupsCode(t, old(temp), rule, n)) && temp == old(temp) + n
    {
      hide Dense, Extends, SlotOf, CaptureSlotKey, GroupsCode, GroupCode, ScanCaptures, AddSlot, Wrap;
      ghost var u := Tab();
      GroupsNone(t, u, temp, rule);
      WrapNone(body);
      for g := 0 to n
        invariant Tab() == ScanCaptures(u, rule, g) && Dense(Tab())
        invariant body == old(body) + Wrap(GroupsCode(t, old(temp), rule, g)) && temp == old(temp) + g
      {
        GroupsStep(t, u, old(temp), rule, g);
        CapturesPrefix(u, rule, n, g + 1);
        ExtendsTrans(ScanCaptures(u, rule, g + 1), ScanCaptures(u, rule, n), t);
        WrapAppend(GroupsCode(t, old(temp), rule, g), GroupCode(t, old(temp), rule, g));
        EmitGroup(rule, g, old(temp), t);
      }
    }

    method EmitGroup(rule: string, g: nat, ghost r: nat, ghost t: Tables)
      requires temp == r + g && Extends(AddSlot(Tab(), CaptureSlotKey(rule, g)), t)
      modifies this`body, this`temp, this`slots
      ensures Tab() == AddSlot(old(Tab()), CaptureSlotKey(rule, g))
      ensures body == old(body) + Wrap(GroupCode(t, r, rule, g)) && temp == r + g + 1
    {
      hide Extends, SlotOf, CaptureSlotKey;
      var capture := Bind(QCapture(g));
      var slot := SlotFor(CaptureSlotKey(rule, g), t);
      Act(DoStore(slot, Use(capture)));
      WrapAppend([Ask(capture, QCapture(g))], [Do(DoStore(slot, Use(capture)))]);
      assert GroupCode(t, r, rule, g) == [Ask(capture, QCapture(g))] + [Do(DoStore(slot, Use(capture)))];
    }

    method EmitStore(hr: HeaderRule, idx: nat, hv: Option<Operand>, ghost t: Tables)
      requires Dense(Tab()) && Extends(ScanStore(Tab(), hr, idx), t)
      modifies this`body, this`temp, this`slots
      ensures Tab() == ScanStore(old(Tab()), hr, idx)
      ensures
        var code := StoreCode(t, old(temp), hr, idx, Lit(hr.headerName), hv);
        body == old(body) + Wrap(code) && temp == old(temp) + Asks(code)
    {
      hide Dense, Extends, GroupsCode, ScanCaptures, SlotOf, CapturingGroups, Asks;
      var rule := if hr.name == "" then "rule" + Decimal(idx) else hr.name;
      if IsPattern(hr.comparison) {
        var pattern := if hr.matchValue.IsPureLiteral() then hr.matchValue.LiteralText() else hr.matchValue.raw;
        var groups := CountCapturingGroups(pattern);
        GroupsNumbered(t, temp, rule, groups + 1, {});
        StoreGroups(rule, groups + 1, t);
      } else if hv.Some? {
        var slot := SlotFor(rule, t);
        DoAsks(DoStore(slot, hv.value));
        Act(DoStore(slot, hv.value));
      } else {
        var fetched := Bind(QHeader(Lit(hr.headerName)));
        var slot := SlotFor(rule, t);
        Act(DoStore(slot, Use(fetched)));
        ghost var ask, store := Ask(fetched, QHeader(Lit(hr.headerName))), Do(DoStore(slot, Use(fetched)));
        WrapAppend([ask], [store]);
        assert [ask] + [store] == [ask, store];
        AskDoNumbered(fetched, QHeader(Lit(hr.headerName)), DoStore(slot, Use(fetched)), {});
      }
    }

    /** One action after the code of a value. */
    method ActAfter(a: Action, ghost code: seq<Call>, ghost before: seq<Stmt>)
      requires body == before + Wrap(code)
      modifies this`body
      ensures body == before + Wrap(code + [Do(a)])
    {
      WrapAppend(code, [Do(a)]);
      Act(a);
    }

    method EmitReplace(hr: HeaderRule, ghost t: Tables)
      requires Dense(Tab()) && Extends(if SetsHeader(hr) then ScanValue(Tab(), hr.newValue) else Tab(), t)
      modifies this`body, this`temp, this`slots
      ensures Tab() == if SetsHeader(hr) then ScanValue(old(Tab()), hr.newValue) else old(Tab())
      ensures
        var code := SetCode(t, old(temp), hr, Lit(hr.headerName));
        body == old(body) + Wrap(code) && temp == old(temp) + Asks(code)
    {
      hide Dense, Extends, ValueCode, ScanValue, ValueOperand, Asks;
      NumberedNone(temp, {});
      if !hr.newValue.Empty() && hr.elementRules == [] {
        ThenAsks(t, temp, hr.newValue, DoSet(Lit(hr.headerName), ValueOperand(temp, hr.newValue)));
        var v := EmitValue(hr.newValue, t);
        ActAfter(DoSet(Lit(hr.headerName), v), ValueCode(t, old(temp), hr.newValue), old(body));
      }
    }

    method EmitHeaderAction(hr: HeaderRule, idx: nat, hv: Option<Operand>, ghost t: Tables) returns (terminated: bool)
      requires Dense(Tab()) && Extends(ScanHeaderAction(Tab(), hr, idx), t)
      modifies this`body, this`temp, this`slots
      ensures Tab() == ScanHeaderAction(old(Tab()), hr, idx) && (terminated <==> hr.action.RejectHeader?)
      ensures
        var code := HeaderCode(t, old(temp), hr, idx, Lit(hr.headerName), hv);
        temp == old(temp) + Asks(code) &&
        body == old(body) + Wrap(code) + if terminated then [Return(true)] else []
    {
      hide Dense, Extends, ValueCode, StoreCode, ScanValue, ScanStore, ValueOperand, TextOperand, Asks;
      var name := Lit(hr.headerName);
      ghost var r, nv := temp, hr.newValue;
      NumberedNone(temp, {});
      terminated := false;
      match hr.action
      case AddHeader =>
        ThenAsks(t, r, nv, DoAdd(name, ValueOperand(r, nv)));
        var v := EmitValue(hr.newValue, t);
        ActAfter(DoAdd(name, v), ValueCode(t, r, nv), old(body));
      case ReplaceHeader =>
        EmitReplace(hr, t);
      case Manipulate =>
        EmitReplace(hr, t);
      case Delete =>
        DoAsks(DoDelete(name));
        Act(DoDelete(name));
      case DeleteHeader =>
        DoAsks(DoDelete(name));
        Act(DoDelete(name));
      case StoreHeader =>
        EmitStore(hr, idx, hv, t);
      case LogHeader =>
        ThenAsks(t, r, nv, DoLog(TextOperand(r, nv, hr.name)));
        var text := EmitText(hr.newValue, hr.name, t);
        ActAfter(DoLog(text), ValueCode(t, r, nv), old(body));
      case RejectHeader =>
        ThenAsks(t, r, nv, DoReject(403, TextOperand(r, nv, hr.name)));
        var text := EmitText(hr.newValue, hr.name, t);
        ActAfter(DoReject(403, text), ValueCode(t, r, nv), old(body));
        Line(Return(true));
        terminated := true;
      case _ =>
    }

    method EmitWrite(name: Operand, hv: Operand, elem: nat, text: Operand)
      modifies this`body, this`temp
      ensures
        var code := WriteCode(old(temp), name, hv, elem, text);
        body == old(body) + Wrap(code) && temp == old(temp) + Asks(code)
    {
      hide Asks;
      if elem == URI_WHOLE {
        DoAsks(DoSet(name, text));
        Act(DoSet(name, text));
      } else {
        var rebuilt := Bind(QUriSet(hv, elem, text));
        Act(DoSet(name, Use(rebuilt)));
        ghost var ask, write := Ask(rebuilt, QUriSet(hv, elem, text)), Do(DoSet(name, Use(rebuilt)));
        WrapAppend([ask], [write]);
        assert [ask] + [write] == [ask, write];
        PairAsks(ask, write.action);
      }
    }

    /** The code of an element action, and the return that ends its closure. */
    method EmitElementAction(hr: HeaderRule, er: ElementRule, name: Operand, elem: nat, hv: Operand, ev: Operand, ghost t: Tables)
      requires Dense(Tab()) && Extends(ScanElementAction(Tab(), hr, er), t)
      modifies this`body, this`temp, this`slots
      ensures Tab() == ScanElementAction(old(Tab()), hr, er)
      ensures
        var code := ElementCode(t, old(temp), hr, er, name, elem, hv, ev);
        temp == old(temp) + Asks(code) && body == old(body) + Wrap(code) + [Return(er.action.RejectElement?)]
    {
      hide Dense, Extends, ValueCode, ScanValue, ValueOperand, TextOperand, WriteCode, SlotOf, Asks;
      ghost var r, v := temp, er.newValue;
      NumberedNone(temp, {});
      var terminated := false;
      match er.action {
        case ReplaceElement =>
          ValueNumbered(t, r, v, {});
          var nv := EmitValue(er.newValue, t);
          ghost var write := WriteCode(temp, name, hv, elem, nv);
          EmitWrite(name, hv, elem, nv);
          WrapAppend(ValueCode(t, r, v), write);
          AsksAppend(ValueCode(t, r, v), write);
        case DeleteElement =>
          if elem == URI_WHOLE {
            DoAsks(DoDelete(name));
            Act(DoDelete(name));
          } else {
            EmitWrite(name, hv, elem, Lit(""));
          }
        case StoreElement =>
          var slot := SlotFor(if er.name == "" then hr.name + ".el" else er.name, t);
          DoAsks(DoStore(slot, ev));
          Act(DoStore(slot, ev));
        case RejectElement =>
          ThenAsks(t, r, v, DoReject(403, TextOperand(r, v, er.name)));
          var text := EmitText(er.newValue, er.name, t);
          ActAfter(DoReject(403, text), ValueCode(t, r, v), old(body));
          Line(Return(true));
          terminated := true;
        case _ =>
      }
      if !terminated {
        Line(Return(false));
      }
    }

    /** The header, and the element read from it. */
    method ReadElement(name: Operand, elem: nat) returns (hv: nat, ev: nat)
      modifies this`body, this`temp
      ensures body == old(body) + Wrap(ReadCalls(old(temp), name, elem))
      ensures hv == old(temp) && ev == ReadTemp(hv, elem) && temp == ev + 1
    {
      hv := Bind(QHeader(name));
      ev := hv;
      if elem != URI_WHOLE {
        ev := Bind(QUriGet(Use(hv), elem));
        WrapAppend([Ask(hv, QHeader(name))], [Ask(ev, QUriGet(Use(hv), elem))]);
      } else {
        assert ReadCalls(hv, name, elem) == [Ask(hv, QHeader(name))];
      }
    }

    method EmitElementRule(hr: HeaderRule, er: ElementRule, name: Operand, ghost t: Tables)
      requires Dense(Tab()) && Extends(ScanElement(Tab(), hr, er), t)
      modifies this
      ensures Tab() == ScanElement(old(Tab()), hr, er) && outer == old(outer)
      ensures
        var part := ElementPart(t, old(temp), hr, er, name);
        body == old(body) + part && temp == old(temp) + Temps(part)
    {
      hide Dense, Extends, ScanGuard, ScanElementAction, ElementCode, MatchPart, ReadCalls, Temps, Asks, Wrap;
      PartTemps(t, temp, hr, er, name);
      var elem := UriElement(er.kind);
      if elem.None? { return; }
      ghost var g := ScanGuard(Tab(), er.comparison, er.matchValue);
      ScanGuardOk(Tab(), er.comparison, er.matchValue);
      ScanElementActionOk(g, hr, er);
      ExtendsTrans(g, ScanElementAction(g, hr, er), t);
      ghost var enclosing := outer;
      Open();
      var hv, ev := ReadElement(name, elem.value);
      EmitMatchGuard(er.comparison, er.matchValType, er.matchValue, Use(ev), t);
      EmitElementAction(hr, er, name, elem.value, Use(hv), Use(ev), t);
      assert body == ElementBody(t, old(temp), hr, er, name, elem.value);
      Close();
      assert outer == enclosing;
    }

    method EmitElementRules(hr: HeaderRule, ghost t: Tables)
      requires Dense(Tab()) && hr.elementRules != [] && Extends(ScanElements(Tab(), hr, |hr.elementRules|), t)
      modifies this
      ensures Tab() == ScanElements(old(Tab()), hr, |hr.elementRules|) && outer == old(outer)
      ensures
        var part := ElementsPart(t, old(temp), hr);
        body == old(body) + part && temp == old(temp) + Temps(part)
    {
      hide Dense, Extends, ScanElement, ElementPart, Temps, Scoped;
      var bound := temp;
      temp := temp + 1;
      ghost var bind := [Declare(bound, hr.headerName)];
      Line(Declare(bound, hr.headerName));
      ghost var u, name := Tab(), Use(bound);
      PartsNone(t, bound + 1, hr, name);
      for i := 0 to |hr.elementRules|
        invariant Dense(Tab()) && Tab() == ScanElements(u, hr, i) && outer == old(outer)
        invariant body == old(body) + bind + ElementParts(t, bound + 1, hr, name, i)
        invariant temp == bound + 1 + Temps(ElementParts(t, bound + 1, hr, name, i))
      {
        ElementsPrefix(u, hr, |hr.elementRules|, i + 1);
        ExtendsTrans(ScanElements(u, hr, i + 1), ScanElements(u, hr, |hr.elementRules|), t);
        TempsAppend(ElementParts(t, bound + 1, hr, name, i), ElementPart(t, temp, hr, hr.elementRules[i], name));
        EmitElementRule(hr, hr.elementRules[i], Use(bound), t);
      }
      OneTemps(bind[0]);
      TempsAppend(bind, ElementParts(t, bound + 1, hr, name, |hr.elementRules|));
    }

    method EmitFilters(hr: HeaderRule)
      modifies this`body, this`temp
      ensures body == old(body) + FilterPart(old(temp), hr) && temp == FetchTemp(old(temp), hr)
    {
      if hr.msgType.Request? {
        Line(SkipIf(IsRequestTest, false));
      } else if hr.msgType.Reply? {
        Line(SkipIf(IsRequestTest, true));
      }
      if hr.HasMethodFilter() {
        var verb := temp;
        temp := temp + 1;
        Line(CallStmt(Ask(verb, QMethod)));
        Line(SkipUnlessAny(Use(verb), hr.methods));
      }
    }

    /** Fetches the header when the guard or a store needs it, then guards. */
    method EmitHeaderGuard(hr: HeaderRule, ghost t: Tables) returns (hv: Option<Operand>)
      requires Dense(Tab()) && Extends(ScanGuard(Tab(), hr.comparison, hr.matchValue), t)
      modifies this`body, this`temp, this`regexes
      ensures Tab() == ScanGuard(old(Tab()), hr.comparison, hr.matchValue)
      ensures body == old(body) + HeaderGuardPart(t, old(temp), hr)
      ensures hv == Fetched(hr, old(temp)) && temp == old(temp) + if NeedsHeader(hr) then 1 else 0
    {
      hide Dense, Extends, Semantics.AddRegex, MatchTypeOf, PatternId;
      hv := None;
      if !hr.matchValue.Empty() || hr.action.StoreHeader? {
        hv := Some(Use(temp));
        Line(CallStmt(Ask(temp, QHeader(Lit(hr.headerName)))));
        temp := temp + 1;
      }
      if !hr.matchValue.Empty() {
        EmitMatchGuard(hr.comparison, AnyValue, hr.matchValue, hv.value, t);
      }
    }

    method EmitTail(hr: HeaderRule, ghost t: Tables)
      requires Dense(Tab()) && Extends(ScanElements(Tab(), hr, |hr.elementRules|), t)
      modifies this
      ensures Tab() == ScanElements(old(Tab()), hr, |hr.elementRules|) && outer == old(outer)
      ensures
        var part := ElementsPart(t, old(temp), hr) + [Return(false)];
        body == old(body) + part && temp == old(temp) + Temps(part)
    {
      hide Dense, Extends, ElementParts, Temps;
      TempsAppend(ElementsPart(t, temp, hr), [Return(false)]);
      OneTemps(Return(false));
      PartsNone(t, temp, hr, Lit(""));
      if hr.elementRules != [] {
        EmitElementRules(hr, t);
      }
      Line(Return(false));
    }

    /** One header rule: the body of its closure. */
    method EmitHeaderRule(hr: HeaderRule, idx: nat, ghost t: Tables)
      requires Dense(Tab()) && body == [] && Extends(ScanRule(Tab(), hr, idx), t)
      modifies this
      ensures Tab() == ScanRule(old(Tab()), hr, idx) && outer == old(outer)
      ensures body == RuleBody(t, old(temp), hr, idx) && temp == old(temp) + Temps(body)
    {
      hide Dense, Extends, FilterPart, HeaderGuardPart, ScanGuard, ScanHeaderAction, HeaderCode, ScanElements, ElementsPart;
      hide Temps, Asks, Wrap;
      RuleTables(Tab(), hr, idx, t);
      RuleTemps(t, temp, hr, idx);
      EmitFilters(hr);
      var hv := EmitHeaderGuard(hr, t);
      var terminated := EmitHeaderAction(hr, idx, hv, t);
      if !terminated {
        EmitTail(hr, t);
      }
      RuleJoins(t, old(temp), hr, idx);
    }

    constructor ()
      ensures outer == [] && body == [] && temp == 0 && Tab() == NO_TABLES
    {
      outer, body, temp := [], [], 0;
      slots, regexes := map[], [];
    }

    /** Generates the closures of `hmr_apply`, and the numbering the module publishes. */
    method Generate(rs: Ruleset) returns (rules: seq<seq<Stmt>>, info: R.ModuleInfo)
      requires outer == [] && body == [] && temp == 0 && Tab() == NO_TABLES
      modifies this
      ensures rules == Generated(rs)
      ensures Tab() == TablesOf(rs)
      ensures info == R.ModuleInfo(|TablesOf(rs).slots|, TablesOf(rs).regexes)
    {
      hide Dense, Extends, ScanRule, ScanRules, RuleBody, Temps, Bodies, BodyTemps;
      ghost var t := TablesOf(rs);
      NoTablesDense();
      BodiesNone(t, rs.headerRules);
      rules := [];
      for i := 0 to |rs.headerRules|
        invariant Dense(Tab()) && Tab() == ScanRules(NO_TABLES, rs.headerRules, i) && body == []
        invariant rules == Bodies(t, rs.headerRules, i) && temp == BodyTemps(rules)
      {
        RulesPrefix(rs.headerRules, |rs.headerRules|, i + 1);
        BodiesStep(t, rs.headerRules, i);
        EmitHeaderRule(rs.headerRules[i], i, t);
        rules := rules + [body];
        body := [];
      }
      info := R.ModuleInfo(|slots|, regexes);
    }
  }

  lemma {:induction false} DoAsks(a: Action)
    ensures Asks([Do(a)]) == 0
  {
    assert [Do(a)][..0] == [];
  }

  lemma {:induction false} ThenAsks(t: Tables, r: nat, v: Value, a: Action)
    ensures Asks(ValueCode(t, r, v) + [Do(a)]) == ValueTemps(v)
  {
    hide ValueCode, Numbered, Asks, ActionUses, ValueTemps;
    ValueThenNumbered(t, r, v, a, ActionUses(a));
  }

  lemma {:induction false} PairAsks(ask: Call, a: Action)
    requires ask.Ask?
    ensures Asks([ask] + [Do(a)]) == 1
  {
    AsksAppend([ask], [Do(a)]);
    DoAsks(a);
    assert [ask][..0] == [];
  }

  lemma {:induction false} AsksAppend(a: seq<Call>, b: seq<Call>)
    ensures Asks(a + b) == Asks(a) + Asks(b)
  {
    if b == [] {
      assert a + b == a;
    } else {
      assert (a + b)[..|a + b| - 1] == a + b[..|b| - 1];
      AsksAppend(a, b[..|b| - 1]);
    }
  }

  lemma {:induction false} WrapTemps(calls: seq<Call>)
    ensures Temps(Wrap(calls)) == Asks(calls)
  {
    if calls != [] {
      WrapTemps(calls[..|calls| - 1]);
      assert Wrap(calls)[..|calls| - 1] == Wrap(calls[..|calls| - 1]);
    }
  }

  lemma {:induction false} PartsNone(t: Tables, r: nat, hr: HeaderRule, name: Operand)
    ensures ElementParts(t, r, hr, name, 0) == [] && Temps([]) == 0
  {
  }

  /** An element closure counts the temporaries of its read and of its action. */
  lemma {:induction false} PartTemps(t: Tables, r: nat, hr: HeaderRule, er: ElementRule, name: Operand)
    ensures UriElement(er.kind).None? ==> Temps(ElementPart(t, r, hr, er, name)) == 0
    ensures UriElement(er.kind).Some? ==>
      var temp := ReadTemp(r, UriElement(er.kind).value);
      r + Temps(ElementPart(t, r, hr, er, name)) ==
      temp + 1 + Asks(ElementCode(t, temp + 1, hr, er, name, UriElement(er.kind).value, Use(r), Use(temp)))
  {
    hide ElementCode, MatchPart, ReadCalls, Temps, Asks, Numbered, Scoped;
    NothingScoped(r, {});
    if UriElement(er.kind).Some? {
      var elem := UriElement(er.kind).value;
      var temp := ReadTemp(r, elem);
      var a, b := Wrap(ReadCalls(r, name, elem)), MatchPart(t, er.comparison, er.matchValType, er.matchValue, Use(temp));
      var code := ElementCode(t, temp + 1, hr, er, name, elem, Use(r), Use(temp));
      var ret := [Return(er.action.RejectElement?)];
      ReadNumbered(r, name, elem, Operands(name));
      WrapTemps(ReadCalls(r, name, elem));
      MatchScoped(t, er.comparison, er.matchValType, er.matchValue, Use(temp), r, {temp});
      WrapTemps(code);
      TempsAppend(a, b);
      TempsAppend(a + b, Wrap(code));
      TempsAppend(a + b + Wrap(code), ret);
      ScopedOne(ret[0], r, {});
      OneTemps(Closure(ElementBody(t, r, hr, er, name, elem)));
    }
  }

  lemma {:induction false} OneTemps(s: Stmt)
    ensures Temps([s]) == StmtTemps(s)
  {
    assert [s][..0] == [];
  }

  lemma {:induction false} RuleJoins(t: Tables, r: nat, hr: HeaderRule, idx: nat)
    ensures
      RuleBody(t, r, hr, idx) ==
      FilterPart(r, hr) + HeaderGuardPart(t, FetchTemp(r, hr), hr) + Wrap(ActionCode(t, r, hr, idx)) +
      TailPart(t, ActionTemp(r, hr) + Asks(ActionCode(t, r, hr, idx)), hr)
  {
    hide FilterPart, HeaderGuardPart, ActionCode, TailPart, Wrap, Asks;
  }

  /** A rule's closure counts the temporaries of its filters, its fetch, its action and its tail. */
  lemma {:induction false} RuleTemps(t: Tables, r: nat, hr: HeaderRule, idx: nat)
    ensures
      var at := ActionTemp(r, hr) + Asks(ActionCode(t, r, hr, idx));
      r + Temps(RuleBody(t, r, hr, idx)) == at + Temps(TailPart(t, at, hr))
    ensures hr.action.RejectHeader? ==> forall at :: Temps(TailPart(t, at, hr)) == 0
  {
    hide FilterPart, HeaderGuardPart, HeaderCode, ElementsPart, Wrap, Asks, Temps, Scoped, Declares;
    var fetch, code := FetchTemp(r, hr), ActionCode(t, r, hr, idx);
    var tail := TailPart(t, ActionTemp(r, hr) + Asks(code), hr);
    FilterScoped(r, hr);
    HeaderGuardScoped(t, fetch, hr);
    WrapTemps(code);
    TempsAppend(Wrap(code), tail);
    TempsAppend(HeaderGuardPart(t, fetch, hr), ActedPart(t, r, hr, idx));
    TempsAppend(FilterPart(r, hr), HeaderGuardPart(t, fetch, hr) + ActedPart(t, r, hr, idx));
    OneTemps(Return(true));
  }

  lemma {:induction false} BodiesNone(t: Tables, rules: seq<HeaderRule>)
    ensures Bodies(t, rules, 0) == [] && BodyTemps([]) == 0 && ScanRules(NO_TABLES, rules, 0) == NO_TABLES
  {
  }

  lemma {:induction false} BodiesStep(t: Tables, rules: seq<HeaderRule>, n: nat)
    requires n < |rules|
    ensures
      var front := Bodies(t, rules, n);
      var body := RuleBody(t, BodyTemps(front), rules[n], n);
      Bodies(t, rules, n + 1) == front + [body] && BodyTemps(front + [body]) == BodyTemps(front) + Temps(body)
    ensures ScanRules(NO_TABLES, rules, n + 1) == ScanRule(ScanRules(NO_TABLES, rules, n), rules[n], n)
  {
    hide RuleBody, Temps, ScanRule;
    var front := Bodies(t, rules, n);
    var body := RuleBody(t, BodyTemps(front), rules[n], n);
    assert (front + [body])[..|front|] == front;
  }
}
