/**
 The tree-walking interpreter. One walk runs in two modes: the constructor runs it
 without a message or a context to number slots and patterns, then freezes the tables;
 an apply runs it with both, and never numbers anything again.
 */
module Interp {
  import opened Text
  import opened Ast
  import opened Lowering
  import opened SipMessage
  import opened Callbacks
  import opened Semantics
  import opened Numbering
  import R = Runtime
  import M = Message
  import Uri

  lemma {:induction false} NoElements(t: Tables, hr: HeaderRule, s: R.State)
    ensures hr.elementRules == [] ==> ScanElements(t, hr, 0) == t && Elements(t, hr, 0, s) == Outcome(s, Continue)
  {
  }

  lemma {:induction false} NoGuard(t: Tables, hr: HeaderRule, ctx: R.Context)
    requires hr.matchValue.Empty()
    ensures ScanGuard(t, hr.comparison, hr.matchValue) == t
    ensures forall subject :: Guard(t, hr.comparison, AnyValue, hr.matchValue, subject, ctx) == (ctx, true)
  {
  }

  /** One more segment: the tables and the text both go on from the shorter list. */
  lemma {:induction false} SegmentStep(t: Tables, segments: seq<Segment>, i: nat, ctx: R.Context)
    requires i < |segments|
    ensures SegmentsText(t, segments[..i + 1], ctx) ==
            SegmentsText(t, segments[..i], ctx) + SegmentText(t, segments[i], ctx)
    ensures ScanSegments(t, segments[..i + 1]) == ScanSegment(ScanSegments(t, segments[..i]), segments[i])
  {
    assert segments[..i + 1][..i] == segments[..i];
  }

  ghost function Now(ctx: HmrContext?): R.Context
    reads ctx, if ctx != null then {ctx.arena} else {}
  {
    if ctx != null then ctx.Plain()
    else R.Context(0, [], [], (e, s) => None, [], false, [], "", [], false, 0, "")
  }

  lemma {:induction false} RefIgnoresScratch(t: Tables, seg: Segment, ctx: R.Context, scratch: string)
    ensures SegmentText(t, seg, ctx.(scratch := scratch)) == SegmentText(t, seg, ctx)
  {
  }

  lemma {:induction false} SingleSegment(t: Tables, seg: Segment, ctx: R.Context)
    ensures SegmentsText(t, [seg], ctx) == SegmentText(t, seg, ctx)
    ensures ScanSegments(t, [seg]) == ScanSegment(t, seg)
  {
    assert [seg][..0] == [];
  }

  /** Where an apply stands: the outcome `o` so far is the state behind the handles. */
  ghost predicate Stands(o: Outcome, msg: HmrSipMsg?, ctx: HmrContext?, flow: Flow)
    requires Linked(msg, ctx)
    reads msg, ctx, if ctx != null then {ctx.arena, ctx.arena.buffer} else {}, if msg != null then {msg.headers} else {}
  {
    msg != null ==> o == Outcome(StateOf(msg, ctx), flow)
  }

  ghost function Snapshot(msg: HmrSipMsg?, ctx: HmrContext?): R.State
    requires Linked(msg, ctx)
    reads msg, ctx, if ctx != null then {ctx.arena, ctx.arena.buffer} else {}, if msg != null then {msg.headers} else {}
  {
    if msg != null then StateOf(msg, ctx) else R.State(M.Message("", M.Start(true, "", None, 0, ""), [], "", None), Now(ctx))
  }

  class Interpreter {
    const rs: Ruleset
    var slots: map<string, nat>
    var regexes: seq<R.RegexEntry>
    var frozen: bool
    var info: R.ModuleInfo
    /** Lookups that found nothing in frozen tables and fell back to 0. */
    ghost var misses: nat

    function Tab(): Tables
      reads this`slots, this`regexes
    {
      Tables(slots, regexes)
    }

    /** Scanning without handles, or applying frozen tables with both. */
    ghost predicate Mode(msg: HmrSipMsg?, ctx: HmrContext?)
      reads this, msg, ctx, if ctx != null then {ctx.arena} else {}, if msg != null then {msg.headers} else {}
    {
      Linked(msg, ctx) && (frozen <==> ctx != null) && Dense(Tab())
    }

    method AddRegex(pattern: string, ci: bool) returns (id: nat)
      modifies this`regexes, this`misses
      ensures var e := R.RegexEntry(pattern, if ci then 1 else 0);
        && Tab() == (if frozen then old(Tab()) else Semantics.AddRegex(old(Tab()), e))
        && id == RegexOf(Tab(), e)
        && misses == old(misses) + if frozen && e !in regexes then 1 else 0
    {
      var flags := if ci then 1 else 0;
      ghost var e := R.RegexEntry(pattern, flags);
      var i := 0;
      while i < |regexes|
        invariant i <= |regexes| && forall k :: 0 <= k < i ==> regexes[k] != e
      {
        if regexes[i].pattern == pattern && regexes[i].flags == flags {
          RegexIndexIs(regexes, e, i);
          return i;
        }
        i := i + 1;
      }
      if frozen {
        misses := misses + 1;
        return 0;
      }
      regexes := regexes + [R.RegexEntry(pattern, flags)];
      RegexIndexIs(regexes, e, i);
      return |regexes| - 1;
    }

    method SlotFor(name: string) returns (id: nat)
      modifies this`slots, this`misses
      ensures Tab() == (if frozen then old(Tab()) else AddSlot(old(Tab()), name))
      ensures id == SlotOf(Tab(), name)
      ensures misses == old(misses) + if frozen && name !in slots then 1 else 0
    {
      if name in slots { return slots[name]; }
      if frozen {
        misses := misses + 1;
        return 0;
      }
      id := |slots|;
      slots := slots[name := id];
    }

    method SlotForRef(ref: ValueRef) returns (id: nat)
      modifies this`slots, this`misses
      ensures Tab() == (if frozen then old(Tab()) else AddSlot(old(Tab()), RefSlotKey(ref)))
      ensures id == SlotOf(Tab(), RefSlotKey(ref))
      ensures misses == old(misses) + if frozen && RefSlotKey(ref) !in slots then 1 else 0
    {
      id := SlotFor(CaptureSlotKey(RefBaseName(ref.name), CaptureNumber(ref)));
    }

    /** The text one segment stands for. */
    method EvalRef(ref: ValueRef, ctx: HmrContext?) returns (v: string)
      requires frozen <==> ctx != null
      requires frozen ==> ScanSegment(Tab(), Reference(ref)) == Tab()
      modifies this`slots, this`misses
      ensures Tab() == ScanSegment(old(Tab()), Reference(ref)) && misses == old(misses)
      ensures ctx != null ==> v == RefText(Tab(), ref, ctx.Plain())
    {
      match ref.kind
      case Variable =>
        v := RtGetVar(ctx, VariableId(ref.name));
      case Capture =>
        v := RtGetCapture(ctx, CaptureNumber(ref));
      case RuleRef =>
        var slot := SlotForRef(ref);
        v := RtLoad(ctx, slot);
    }

    /** A multi-segment expression, built in the scratch buffer of the context. */
    method BuildValue(segments: seq<Segment>, ctx: HmrContext?) returns (text: string)
      requires (frozen <==> ctx != null) && Dense(Tab())
      requires frozen ==> ScanSegments(Tab(), segments) == Tab()
      modifies this`slots, this`misses, ctx
      ensures Tab() == ScanSegments(old(Tab()), segments) && misses == old(misses)
      ensures ctx != null ==>
        text == SegmentsText(Tab(), segments, old(ctx.Plain())) && ctx.Plain() == old(ctx.Plain()).(scratch := text)
    {
      hide Dense, RefText;
      ghost var t, c := Tab(), Now(ctx);
      RtValReset(ctx);
      for i := 0 to |segments|
        invariant Tab() == ScanSegments(t, segments[..i]) && misses == old(misses)
        invariant ctx != null ==> Tab() == t && ctx.Plain() == c.(scratch := SegmentsText(t, segments[..i], c))
      {
        SegmentStep(t, segments, i, c);
        if ctx != null {
          SegmentsSteady(t, segments, i + 1);
          RefIgnoresScratch(t, segments[i], c, SegmentsText(t, segments[..i], c));
        }
        match segments[i]
        case Literal(lit) =>
          if lit != "" {
            RtValAppend(ctx, lit);
          }
        case Reference(ref) =>
          var piece := EvalRef(ref, ctx);
          RtValAppend(ctx, piece);
      }
      assert segments[..|segments|] == segments;
      text := RtValFinish(ctx);
    }

    method EvalValue(v: Value, ghost msg: HmrSipMsg?, ctx: HmrContext?) returns (text: string)
      requires Mode(msg, ctx)
      requires frozen ==> ScanValue(Tab(), v) == Tab()
      modifies this`slots, this`misses, ctx
      ensures Linked(msg, ctx) && Tab() == ScanValue(old(Tab()), v) && misses == old(misses)
      ensures msg != null ==> text == ValueText(Tab(), v, old(StateOf(msg, ctx)).ctx)
      ensures msg != null ==> StateOf(msg, ctx) == Evaluated(Tab(), v, old(StateOf(msg, ctx)))
    {
      hide Dense;
      if v.Empty() { return ""; }
      if v.IsPureLiteral() { return v.LiteralText(); }
      if v.IsSingleRef() {
        SingleSegment(Tab(), v.segments[0], Now(ctx));
        assert v.segments == [v.segments[0]];
        text := EvalRef(v.segments[0].ref, ctx);
        SingleSegment(Tab(), v.segments[0], Now(ctx));
        return;
      }
      text := BuildValue(v.segments, ctx);
    }

    /** The matcher a guard selects, and the pattern's id when that is the regex matcher. */
    method SelectMatcher(cmp: ComparisonType, mvt: MatchValType, pattern: string) returns (matchType: nat, regexId: nat)
      requires frozen && IsPattern(cmp) ==> Semantics.AddRegex(Tab(), EntryFor(cmp, pattern)) == Tab()
      modifies this`regexes, this`misses
      ensures Tab() == if IsPattern(cmp) then Semantics.AddRegex(old(Tab()), EntryFor(cmp, pattern)) else old(Tab())
      ensures misses == old(misses)
      ensures matchType == MatchTypeOf(cmp, mvt, pattern)
      ensures regexId == if IsPattern(cmp) then RegexOf(Tab(), EntryFor(cmp, pattern)) else 0
    {
      regexId := 0;
      if IsPattern(cmp) {
        matchType := MATCH_REGEX;
        RegexSteady(Tab(), EntryFor(cmp, pattern));
        regexId := AddRegex(pattern, IsCaseInsensitive(cmp));
      } else {
        match mvt
        case Ip => matchType := IpMatchType(pattern);
        case Fqdn => matchType := MATCH_FQDN;
        case AnyValue => matchType := if IsCaseInsensitive(cmp) then MATCH_EXACT_CI else MATCH_EXACT;
      }
    }

    /** Whether the guard lets its rule fire; the answer is not used while scanning. */
    method EvalMatchGuard(cmp: ComparisonType, mvt: MatchValType, mv: Value, subject: string,
                          ghost msg: HmrSipMsg?, ctx: HmrContext?) returns (ok: bool)
      requires Mode(msg, ctx)
      requires frozen ==> ScanGuard(Tab(), cmp, mv) == Tab()
      modifies this`regexes, this`misses, ctx
      ensures Linked(msg, ctx) && Tab() == ScanGuard(old(Tab()), cmp, mv) && misses == old(misses)
      ensures msg != null ==>
        var g := Guard(Tab(), cmp, mvt, mv, subject, old(StateOf(msg, ctx)).ctx);
        ok == g.1 && StateOf(msg, ctx) == old(StateOf(msg, ctx)).(ctx := g.0)
    {
      hide Dense, R.RtMatch, Semantics.AddRegex, RegexOf, MatchTypeOf;
      if mv.Empty() { return true; }
      if !mv.IsRegexLiteral() && !mv.IsPureLiteral() { return true; }
      var pattern := if mv.IsPureLiteral() then mv.LiteralText() else mv.raw;
      var matchType, regexId := SelectMatcher(cmp, mvt, pattern);
      var cond := RtMatch(ctx, matchType, subject, pattern, regexId);
      ok := if mv.negated then !cond else cond;
    }

    /** A log or reject text: the value if there is one, else the name of the rule. */
    method MessageText(v: Value, name: string, ghost msg: HmrSipMsg?, ctx: HmrContext?) returns (text: string)
      requires Mode(msg, ctx)
      requires frozen ==> ScanValue(Tab(), v) == Tab()
      modifies this`slots, this`misses, ctx
      ensures Linked(msg, ctx) && Tab() == ScanValue(old(Tab()), v) && misses == old(misses)
      ensures msg != null ==> text == MessageOr(Tab(), v, name, old(StateOf(msg, ctx)).ctx)
      ensures msg != null ==> StateOf(msg, ctx) == Evaluated(Tab(), v, old(StateOf(msg, ctx)))
    {
      hide Dense, ScanSegments, SegmentsText;
      if v.Empty() {
        text := name;
      } else {
        text := EvalValue(v, msg, ctx);
      }
    }

    method RunLog(v: Value, name: string, ghost msg: HmrSipMsg?, ctx: HmrContext?)
      requires Mode(msg, ctx)
      requires frozen ==> ScanValue(Tab(), v) == Tab()
      modifies this`slots, this`misses, ctx
      ensures Linked(msg, ctx) && Tab() == ScanValue(old(Tab()), v) && misses == old(misses)
      ensures msg != null ==>
        var e := Evaluated(Tab(), v, old(StateOf(msg, ctx)));
        StateOf(msg, ctx) == e.(ctx := R.RtLog(e.ctx, MessageOr(Tab(), v, name, old(StateOf(msg, ctx)).ctx)))
    {
      hide Dense, ScanValue, MessageOr, Evaluated;
      var text := MessageText(v, name, msg, ctx);
      RtLog(ctx, text);
    }

    method RunReject(v: Value, name: string, ghost msg: HmrSipMsg?, ctx: HmrContext?)
      requires Mode(msg, ctx)
      requires frozen ==> ScanValue(Tab(), v) == Tab()
      modifies this`slots, this`misses, ctx
      ensures Linked(msg, ctx) && Tab() == ScanValue(old(Tab()), v) && misses == old(misses)
      ensures msg != null ==>
        var e := Evaluated(Tab(), v, old(StateOf(msg, ctx)));
        StateOf(msg, ctx) == e.(ctx := R.RtReject(e.ctx, 403, MessageOr(Tab(), v, name, old(StateOf(msg, ctx)).ctx)))
    {
      hide Dense, ScanValue, MessageOr, Evaluated;
      var text := MessageText(v, name, msg, ctx);
      RtReject(ctx, 403, text);
    }

    /** The whole match and every group of the pattern just matched, each under its own slot. */
    method StoreGroups(rule: string, n: nat, ctx: HmrContext?)
      requires (frozen <==> ctx != null) && Dense(Tab())
      requires frozen ==> ScanCaptures(Tab(), rule, n) == Tab()
      modifies this`slots, this`misses, ctx
      ensures Tab() == ScanCaptures(old(Tab()), rule, n) && misses == old(misses)
      ensures ctx != null ==> ctx.Plain() == StoreCaptures(Tab(), rule, n, old(ctx.Plain()))
    {
      hide Dense;
      ghost var t, c := Tab(), Now(ctx);
      for g := 0 to n
        invariant Tab() == ScanCaptures(t, rule, g) && misses == old(misses)
        invariant ctx != null ==> Tab() == t && ctx.Plain() == StoreCaptures(t, rule, g, c)
      {
        if ctx != null {
          CapturesSteady(t, rule, n, g + 1);
        }
        var slot := SlotFor(CaptureSlotKey(rule, g));
        var capture := RtGetCapture(ctx, g);
        RtStore(ctx, slot, capture);
      }
    }

    method RunStore(hr: HeaderRule, idx: nat, hv: string, ghost msg: HmrSipMsg?, ctx: HmrContext?)
      requires Mode(msg, ctx)
      requires frozen ==> ScanStore(Tab(), hr, idx) == Tab()
      requires msg != null ==> hv == M.GetHeader(StateOf(msg, ctx).msg, hr.headerName)
      modifies this`slots, this`misses, ctx
      ensures Linked(msg, ctx) && Tab() == ScanStore(old(Tab()), hr, idx) && misses == old(misses)
      ensures msg != null ==> StateOf(msg, ctx) == StoreMeaning(Tab(), hr, idx, old(StateOf(msg, ctx)))
    {
      hide Dense, ScanCaptures, StoreCaptures, CapturingGroups;
      var rule := if hr.name == "" then "rule" + Decimal(idx) else hr.name;
      if IsPattern(hr.comparison) {
        var pattern := if hr.matchValue.IsPureLiteral() then hr.matchValue.LiteralText() else hr.matchValue.raw;
        var groups := CountCapturingGroups(pattern);
        StoreGroups(rule, groups + 1, ctx);
      } else {
        var slot := SlotFor(rule);
        RtStore(ctx, slot, hv);
      }
    }

    /** Runs the header-level action; true when it rejected the message. */
    method RunHeaderAction(hr: HeaderRule, idx: nat, hv: string, haveHv: bool, msg: HmrSipMsg?, ctx: HmrContext?)
      returns (terminated: bool)
      requires Mode(msg, ctx)
      requires frozen ==> ScanHeaderAction(Tab(), hr, idx) == Tab()
      requires msg != null && haveHv ==> hv == M.GetHeader(StateOf(msg, ctx).msg, hr.headerName)
      modifies this`slots, this`misses, ctx, Written(msg, ctx)
      ensures Linked(msg, ctx) && Tab() == ScanHeaderAction(old(Tab()), hr, idx) && misses == old(misses)
      ensures terminated <==> hr.action.RejectHeader?
      ensures msg != null ==>
        HeaderAct(Tab(), hr, idx, old(StateOf(msg, ctx))) ==
        Outcome(StateOf(msg, ctx), if terminated then Rejected else Continue)
    {
      hide Dense, ScanValue, ScanStore, StoreMeaning, MessageOr, ValueText, Evaluated;
      hide R.RtAddHeader, R.RtSetHeader, R.RtDeleteHeader, M.GetHeader;
      terminated := false;
      match hr.action
      case AddHeader =>
        var v := EvalValue(hr.newValue, msg, ctx);
        RtAddHeader(msg, ctx, hr.headerName, v);
      case ReplaceHeader =>
        RunReplace(hr, msg, ctx);
      case Manipulate =>
        RunReplace(hr, msg, ctx);
      case Delete =>
        RtDeleteHeader(msg, ctx, hr.headerName);
      case DeleteHeader =>
        RtDeleteHeader(msg, ctx, hr.headerName);
      case StoreHeader =>
        var stored := hv;
        if !haveHv {
          stored := RtGetHeader(msg, ctx, hr.headerName);
        }
        RunStore(hr, idx, stored, msg, ctx);
      case LogHeader =>
        RunLog(hr.newValue, hr.name, msg, ctx);
      case RejectHeader =>
        RunReject(hr.newValue, hr.name, msg, ctx);
        terminated := true;
      case _ =>
    }

    method RunReplace(hr: HeaderRule, msg: HmrSipMsg?, ctx: HmrContext?)
      requires Mode(msg, ctx)
      requires frozen && SetsHeader(hr) ==> ScanValue(Tab(), hr.newValue) == Tab()
      modifies this`slots, this`misses, ctx, Written(msg, ctx)
      ensures Linked(msg, ctx) && misses == old(misses)
      ensures Tab() == if SetsHeader(hr) then ScanValue(old(Tab()), hr.newValue) else old(Tab())
      ensures msg != null && SetsHeader(hr) ==>
        StateOf(msg, ctx) == R.RtSetHeader(Evaluated(Tab(), hr.newValue, old(StateOf(msg, ctx))), hr.headerName,
                                           ValueText(Tab(), hr.newValue, old(StateOf(msg, ctx)).ctx))
      ensures msg != null && !SetsHeader(hr) ==> StateOf(msg, ctx) == old(StateOf(msg, ctx))
    {
      hide Dense, ScanValue, ValueText, Evaluated;
      if !hr.newValue.Empty() && hr.elementRules == [] {
        var v := EvalValue(hr.newValue, msg, ctx);
        RtSetHeader(msg, ctx, hr.headerName, v);
      }
    }

    method WriteBack(name: string, hv: string, elem: nat, text: string, msg: HmrSipMsg?, ctx: HmrContext?)
      requires Linked(msg, ctx)
      modifies Written(msg, ctx)
      ensures Linked(msg, ctx)
      ensures msg != null ==> StateOf(msg, ctx) == WriteElement(old(StateOf(msg, ctx)), name, hv, elem, text)
    {
      hide R.RtUriSet, R.RtSetHeader;
      if elem == URI_WHOLE {
        RtSetHeader(msg, ctx, name, text);
      } else {
        var rebuilt := RtUriSet(msg, ctx, hv, elem, text);
        RtSetHeader(msg, ctx, name, rebuilt);
      }
    }

    method RunElementAction(hr: HeaderRule, er: ElementRule, elem: nat, hv: string, ev: string,
                            msg: HmrSipMsg?, ctx: HmrContext?, scan: bool) returns (flow: Flow)
      requires Mode(msg, ctx) && (scan <==> msg == null)
      requires frozen ==> ScanElementAction(Tab(), hr, er) == Tab()
      modifies this`slots, this`misses, ctx, Written(msg, ctx)
      ensures Linked(msg, ctx) && Tab() == ScanElementAction(old(Tab()), hr, er) && misses == old(misses)
      ensures scan ==> flow.Continue?
      ensures msg != null ==>
        ElementAct(Tab(), hr, er, elem, hv, ev, old(StateOf(msg, ctx))) == Outcome(StateOf(msg, ctx), flow)
    {
      hide Dense, ScanValue, MessageOr, ValueText, Evaluated, WriteElement, R.RtDeleteHeader;
      flow := Continue;
      match er.action
      case ReplaceElement =>
        var nv := EvalValue(er.newValue, msg, ctx);
        WriteBack(hr.headerName, hv, elem, nv, msg, ctx);
      case DeleteElement =>
        if elem == URI_WHOLE {
          RtDeleteHeader(msg, ctx, hr.headerName);
        } else {
          WriteBack(hr.headerName, hv, elem, "", msg, ctx);
        }
      case StoreElement =>
        var slot := SlotFor(if er.name == "" then hr.name + ".el" else er.name);
        RtStore(ctx, slot, ev);
      case RejectElement =>
        RunReject(er.newValue, er.name, msg, ctx);
        if !scan { return Rejected; }
      case _ =>
    }

    /** The header as it is now, since an earlier element rule may have rewritten it. */
    method ReadElement(name: string, elem: nat, msg: HmrSipMsg?, ctx: HmrContext?) returns (hv: string, ev: string)
      requires Linked(msg, ctx)
      ensures msg != null ==> hv == M.GetHeader(StateOf(msg, ctx).msg, name) && ev == Uri.Component(hv, elem)
    {
      hv := RtGetHeader(msg, ctx, name);
      ev := hv;
      if elem != URI_WHOLE {
        ev := RtUriGet(ctx, hv, elem);
      }
    }

    method RunElementRule(hr: HeaderRule, er: ElementRule, msg: HmrSipMsg?, ctx: HmrContext?, scan: bool)
      returns (flow: Flow)
      requires Mode(msg, ctx) && (scan <==> msg == null)
      requires frozen ==> ScanElement(Tab(), hr, er) == Tab()
      modifies this`slots, this`regexes, this`misses, ctx, Written(msg, ctx)
      ensures Linked(msg, ctx) && Tab() == ScanElement(old(Tab()), hr, er) && misses == old(misses)
      ensures scan ==> flow.Continue?
      ensures msg != null ==>
        ElementMeaning(Tab(), hr, er, old(StateOf(msg, ctx))) == Outcome(StateOf(msg, ctx), flow)
    {
      hide Dense, ScanGuard, ScanElementAction, Guard, ElementAct, Uri.Component;
      var elem := UriElement(er.kind);
      if elem.None? { return Continue; }
      if frozen {
        ElementSteady(Tab(), hr, er);
      }
      ScanGuardOk(Tab(), er.comparison, er.matchValue);
      var hv, ev := ReadElement(hr.headerName, elem.value, msg, ctx);
      var ok := EvalMatchGuard(er.comparison, er.matchValType, er.matchValue, ev, msg, ctx);
      if !scan && !ok { return Continue; }
      flow := RunElementAction(hr, er, elem.value, hv, ev, msg, ctx, scan);
    }

    method RunElementRules(hr: HeaderRule, msg: HmrSipMsg?, ctx: HmrContext?, scan: bool) returns (flow: Flow)
      requires Mode(msg, ctx) && (scan <==> msg == null)
      requires frozen ==> forall k :: 0 <= k < |hr.elementRules| ==> ScanElement(Tab(), hr, hr.elementRules[k]) == Tab()
      modifies this`slots, this`regexes, this`misses, ctx, Written(msg, ctx)
      ensures Linked(msg, ctx) && misses == old(misses)
      ensures Tab() == if frozen then old(Tab()) else ScanElements(old(Tab()), hr, |hr.elementRules|)
      ensures msg != null ==>
        Elements(Tab(), hr, |hr.elementRules|, old(StateOf(msg, ctx))) == Outcome(StateOf(msg, ctx), flow)
    {
      hide Dense, ScanElement, ElementMeaning;
      ghost var t, s := Tab(), Snapshot(msg, ctx);
      for i := 0 to |hr.elementRules|
        invariant Mode(msg, ctx) && misses == old(misses)
        invariant Tab() == if frozen then t else ScanElements(t, hr, i)
        invariant Stands(Elements(t, hr, i, s), msg, ctx, Continue)
      {
        ScanElementOk(Tab(), hr, hr.elementRules[i]);
        flow := RunElementRule(hr, hr.elementRules[i], msg, ctx, scan);
        if flow.Rejected? {
          ElementRejectStays(t, hr, i + 1, |hr.elementRules|, s);
          return;
        }
      }
      flow := Continue;
    }

    method MethodAccepted(methods: seq<string>, msg: HmrSipMsg?, ctx: HmrContext?) returns (acc: bool)
      requires Linked(msg, ctx)
      ensures msg != null ==>
        (acc <==> exists k :: 0 <= k < |methods| && IEquals(StateOf(msg, ctx).msg.start.verb, methods[k]))
    {
      hide IEquals;
      var verb := RtGetMethod(msg, ctx);
      acc := false;
      for i := 0 to |methods|
        invariant acc <==> exists k :: 0 <= k < i && IEquals(verb, methods[k])
      {
        if !acc {
          acc := RtStrEq(verb, methods[i], true);
        }
      }
    }

    /** The message-type and method filters. */
    method PassesFilters(hr: HeaderRule, msg: HmrSipMsg?, ctx: HmrContext?, scan: bool) returns (pass: bool)
      requires Linked(msg, ctx) && (scan <==> msg == null)
      ensures scan ==> pass
      ensures msg != null ==> pass == (TypePasses(hr, StateOf(msg, ctx).msg) && MethodPasses(hr, StateOf(msg, ctx).msg))
    {
      var isRequest := RtIsRequest(msg, ctx);
      if hr.msgType.Request? {
        if !scan && !isRequest { return false; }
      } else if hr.msgType.Reply? {
        if !scan && isRequest { return false; }
      }
      if hr.HasMethodFilter() {
        var acc := MethodAccepted(hr.methods, msg, ctx);
        if !scan && !acc { return false; }
      }
      return true;
    }

    /** The action of a rule whose guards passed, then its element rules. */
    method RunGuarded(hr: HeaderRule, idx: nat, hv: string, haveHv: bool, msg: HmrSipMsg?, ctx: HmrContext?, scan: bool)
      returns (flow: Flow)
      requires Mode(msg, ctx) && (scan <==> msg == null)
      requires frozen ==> ScanHeaderAction(Tab(), hr, idx) == Tab()
      requires frozen && !hr.action.RejectHeader? ==>
        forall k :: 0 <= k < |hr.elementRules| ==> ScanElement(Tab(), hr, hr.elementRules[k]) == Tab()
      requires msg != null && haveHv ==> hv == M.GetHeader(StateOf(msg, ctx).msg, hr.headerName)
      modifies this`slots, this`regexes, this`misses, ctx, Written(msg, ctx)
      ensures Linked(msg, ctx) && misses == old(misses)
      ensures Tab() == if frozen then old(Tab()) else ScanActed(old(Tab()), hr, idx)
      ensures msg != null ==> Acted(Tab(), hr, idx, old(StateOf(msg, ctx))) == Outcome(StateOf(msg, ctx), flow)
    {
      hide Dense, ScanElement, ScanElements, ScanHeaderAction, HeaderAct, Elements, M.GetHeader;
      ScanHeaderActionOk(Tab(), hr, idx);
      var terminated := RunHeaderAction(hr, idx, hv, haveHv, msg, ctx);
      if terminated { return Rejected; }
      NoElements(Tab(), hr, Snapshot(msg, ctx));
      if hr.elementRules != [] {
        flow := RunElementRules(hr, msg, ctx, scan);
      } else {
        flow := Continue;
      }
    }

    method RunHeaderRule(hr: HeaderRule, idx: nat, msg: HmrSipMsg?, ctx: HmrContext?, scan: bool) returns (flow: Flow)
      requires Mode(msg, ctx) && (scan <==> msg == null)
      requires frozen ==> CoversRule(Tab(), hr, idx)
      modifies this`slots, this`regexes, this`misses, ctx, Written(msg, ctx)
      ensures Linked(msg, ctx) && misses == old(misses)
      ensures Tab() == if frozen then old(Tab()) else ScanRule(old(Tab()), hr, idx)
      ensures msg != null ==> RuleMeaning(Tab(), hr, idx, old(StateOf(msg, ctx))) == Outcome(StateOf(msg, ctx), flow)
    {
      hide Dense, ScanElement, ScanActed, ScanHeaderAction, ScanGuard, Acted, TypePasses, MethodPasses, M.GetHeader;
      var pass := PassesFilters(hr, msg, ctx, scan);
      if !pass { return Continue; }
      var haveHv := !hr.matchValue.Empty() || hr.action.StoreHeader?;
      var hv := "";
      if haveHv {
        hv := RtGetHeader(msg, ctx, hr.headerName);
      }
      ScanGuardOk(Tab(), hr.comparison, hr.matchValue);
      if !hr.matchValue.Empty() {
        var ok := EvalMatchGuard(hr.comparison, AnyValue, hr.matchValue, hv, msg, ctx);
        if !scan && !ok { return Continue; }
      } else {
        NoGuard(Tab(), hr, Snapshot(msg, ctx).ctx);
      }
      flow := RunGuarded(hr, idx, hv, haveHv, msg, ctx, scan);
    }

    /** The walk over all rules; a reject stops an apply, never the scan. */
    method Walk(msg: HmrSipMsg?, ctx: HmrContext?, scan: bool) returns (verdict: Flow)
      requires Mode(msg, ctx) && (scan <==> msg == null)
      requires frozen ==> Tab() == TablesOf(rs)
      requires !frozen ==> Tab() == NO_TABLES
      modifies this`slots, this`regexes, this`misses, ctx, Written(msg, ctx)
      ensures Linked(msg, ctx) && misses == old(misses)
      ensures Tab() == TablesOf(rs)
      ensures msg != null ==> Meaning(rs, old(StateOf(msg, ctx))) == Outcome(StateOf(msg, ctx), verdict)
    {
      hide Dense, ScanRule, RuleMeaning, CoversRule;
      ghost var s := Snapshot(msg, ctx);
      for i := 0 to |rs.headerRules|
        invariant Mode(msg, ctx) && misses == old(misses)
        invariant Tab() == if frozen then TablesOf(rs) else ScanRules(NO_TABLES, rs.headerRules, i)
        invariant Stands(Rules(TablesOf(rs), rs.headerRules, i, s), msg, ctx, Continue)
      {
        ScanCovers(rs, i);
        ScanRuleOk(Tab(), rs.headerRules[i], i);
        var flow := RunHeaderRule(rs.headerRules[i], i, msg, ctx, scan);
        if !scan && flow.Rejected? {
          RejectedStays(TablesOf(rs), rs.headerRules, i + 1, |rs.headerRules|, s);
          return Rejected;
        }
      }
      verdict := Continue;
    }

    /** What holds of an interpreter once built: complete tables, published and frozen. */
    ghost predicate Ready()
      reads this
    {
      frozen && Tab() == TablesOf(rs) && info == R.ModuleInfo(|slots|, regexes)
    }

    constructor (rs: Ruleset)
      ensures this.rs == rs && Ready() && misses == 0
    {
      this.rs := rs;
      slots, regexes, frozen, misses := map[], [], false, 0;
      info := R.ModuleInfo(0, []);
      new;
      NoTablesDense();
      var verdict := Walk(null, null, true);
      frozen := true;
      info := R.ModuleInfo(|slots|, regexes);
    }

    /** Applies the rules to a message: the meaning of the ruleset, and no table is touched. */
    method Apply(msg: HmrSipMsg, ctx: HmrContext) returns (verdict: Flow)
      requires Ready() && Linked(msg, ctx)
      modifies this`slots, this`regexes, this`misses, ctx, Written(msg, ctx)
      ensures Ready() && Linked(msg, ctx)
      ensures Tab() == old(Tab()) && misses == old(misses)
      ensures Meaning(rs, old(StateOf(msg, ctx))) == Outcome(StateOf(msg, ctx), verdict)
    {
      NumberingIsDense(rs);
      verdict := Walk(msg, ctx, false);
    }
  }
}
