/**
 The straight-line code both generators emit for values and actions, and that running
 it does what the meaning of the ruleset says.
 */
module Fragments {
  import opened Text
  import opened Ast
  import opened Lowering
  import opened Message
  import opened Runtime
  import opened RuntimeCalls
  import opened Semantics
  import Uri

  // ---- values --------------------------------------------------------------

  function RefQuery(t: Tables, ref: ValueRef): Query {
    match ref.kind
    case Variable => QVar(VariableId(ref.name))
    case Capture => QCapture(CaptureNumber(ref))
    case RuleRef => QLoad(SlotOf(t, RefSlotKey(ref)))
  }

  function AppendAction(t: Tables, seg: Segment): Action {
    if seg.Literal? then DoAppendLit(seg.text)
    else match seg.ref.kind
      case Variable => DoAppendVar(VariableId(seg.ref.name))
      case Capture => DoAppendCapture(CaptureNumber(seg.ref))
      case RuleRef => DoAppendSlot(SlotOf(t, RefSlotKey(seg.ref)))
  }

  /** An empty literal appends nothing, so no call is made for it. */
  function SegmentCode(t: Tables, seg: Segment): seq<Call> {
    if seg.Literal? && seg.text == "" then [] else [Do(AppendAction(t, seg))]
  }

  function SegmentsCode(t: Tables, segments: seq<Segment>): seq<Call> {
    if segments == [] then []
    else SegmentsCode(t, segments[..|segments| - 1]) + SegmentCode(t, segments[|segments| - 1])
  }

  function ValueCode(t: Tables, r: nat, v: Value): seq<Call> {
    if v.Empty() || v.IsPureLiteral() then []
    else if v.IsSingleRef() then [Ask(r, RefQuery(t, v.segments[0].ref))]
    else ([Do(DoReset)] + SegmentsCode(t, v.segments)) + [Ask(r, QFinish)]
  }

  function ValueOperand(r: nat, v: Value): Operand {
    if v.Empty() then Lit("") else if v.IsPureLiteral() then Lit(v.LiteralText()) else Use(r)
  }

  function ValueTemps(v: Value): nat {
    if v.Empty() || v.IsPureLiteral() then 0 else 1
  }

  function TextOperand(r: nat, v: Value, name: string): Operand {
    if v.Empty() then Lit(name) else ValueOperand(r, v)
  }

  /** The temporaries after evaluating a value into temporary `r`. */
  function ValueEnv(t: Tables, r: nat, v: Value, m: Machine): Env {
    if ValueTemps(v) == 0 then m.env else m.env[r := ValueText(t, v, m.state.ctx)]
  }

  function Scratch(m: Machine, text: string): Machine {
    m.(state := m.state.(ctx := m.state.ctx.(scratch := text)))
  }

  lemma {:induction false} SegmentsRun(t: Tables, segments: seq<Segment>, m: Machine)
    ensures RunCalls(SegmentsCode(t, segments), Some(Scratch(m, ""))) ==
            Some(Scratch(m, SegmentsText(t, segments, m.state.ctx)))
  {
    if segments != [] {
      var front, last := segments[..|segments| - 1], segments[|segments| - 1];
      SegmentsRun(t, front, m);
      RunAppend(SegmentsCode(t, front), SegmentCode(t, last), Some(Scratch(m, "")));
      SegmentRuns(t, last, m, SegmentsText(t, front, m.state.ctx));
    }
  }

  lemma {:induction false} SegmentRuns(t: Tables, seg: Segment, m: Machine, done: string)
    ensures RunCalls(SegmentCode(t, seg), Some(Scratch(m, done))) ==
            Some(Scratch(m, done + SegmentText(t, seg, m.state.ctx)))
  {
    if seg.Literal? && seg.text == "" {
      assert done + "" == done;
    } else {
      RunOne(Do(AppendAction(t, seg)), Some(Scratch(m, done)));
    }
  }

  lemma {:induction false} SingleRuns(t: Tables, r: nat, v: Value, m: Machine)
    requires v.IsSingleRef()
    ensures RunCalls([Ask(r, RefQuery(t, v.segments[0].ref))], Some(m)) ==
            Some(Machine(m.env[r := SegmentsText(t, v.segments, m.state.ctx)], m.state))
  {
    var ref := v.segments[0].ref;
    assert v.segments[..0] == [];
    var text := RefText(t, ref, m.state.ctx);
    assert SegmentsText(t, v.segments, m.state.ctx) == "" + text == text;
    RunOne(Ask(r, RefQuery(t, ref)), Some(m));
    AskRuns(r, RefQuery(t, ref), m, text);
  }

  lemma {:induction false} BuiltRuns(t: Tables, r: nat, segments: seq<Segment>, m: Machine)
    ensures RunCalls(([Do(DoReset)] + SegmentsCode(t, segments)) + [Ask(r, QFinish)], Some(m)) ==
            BuiltMachine(r, m, SegmentsText(t, segments, m.state.ctx))
  {
    hide RunCalls, SegmentsCode, SegmentsText;
    RunOne(Do(DoReset), Some(m));
    RunAppend([Do(DoReset)], SegmentsCode(t, segments), Some(m));
    SegmentsRun(t, segments, m);
    RunAppend([Do(DoReset)] + SegmentsCode(t, segments), [Ask(r, QFinish)], Some(m));
    RunOne(Ask(r, QFinish), Some(Scratch(m, SegmentsText(t, segments, m.state.ctx))));
  }

  function BuiltMachine(r: nat, m: Machine, text: string): Option<Machine> {
    Some(Machine(m.env[r := text], Scratch(m, text).state))
  }

  lemma {:induction false} ValueRuns(t: Tables, r: nat, v: Value, m: Machine)
    ensures RunCalls(ValueCode(t, r, v), Some(m)) == Some(Machine(ValueEnv(t, r, v, m), Evaluated(t, v, m.state)))
  {
    hide SegmentsCode, SegmentsText, RunCalls;
    if v.Empty() || v.IsPureLiteral() {
      RunNone(Some(m));
    } else if v.IsSingleRef() {
      SingleRuns(t, r, v, m);
    } else {
      BuiltRuns(t, r, v.segments, m);
    }
  }

  lemma {:induction false} RunNone(m: Option<Machine>)
    ensures RunCalls([], m) == m
  {
  }

  lemma {:induction false} ValueOperandReads(t: Tables, r: nat, v: Value, name: string, m: Machine)
    ensures TextOf(ValueOperand(r, v), ValueEnv(t, r, v, m)) == Some(ValueText(t, v, m.state.ctx))
    ensures TextOf(TextOperand(r, v, name), ValueEnv(t, r, v, m)) == Some(MessageOr(t, v, name, m.state.ctx))
  {
  }

  /** Code for a value followed by one action on it: the action sees the value's text. */
  lemma {:induction false} ValueThen(t: Tables, r: nat, v: Value, a: Action, m: Machine)
    ensures RunCalls(ValueCode(t, r, v) + [Do(a)], Some(m)) ==
            Leave(Perform(a, Machine(ValueEnv(t, r, v, m), Evaluated(t, v, m.state))), ValueEnv(t, r, v, m))
  {
    hide RunCalls, ValueCode, Perform;
    ValueRuns(t, r, v, m);
    RunAppend(ValueCode(t, r, v), [Do(a)], Some(m));
    RunOne(Do(a), Some(Machine(ValueEnv(t, r, v, m), Evaluated(t, v, m.state))));
  }

  // ---- header actions ------------------------------------------------------

  /** Reads and stores captures 0..n-1, numbering their temporaries from `r`. */
  function GroupsCode(t: Tables, r: nat, rule: string, n: nat): seq<Call> {
    if n == 0 then []
    else GroupsCode(t, r, rule, n - 1) + GroupCode(t, r, rule, n - 1)
  }

  function GroupCode(t: Tables, r: nat, rule: string, g: nat): seq<Call> {
    [Ask(r + g, QCapture(g)), Do(DoStore(SlotOf(t, CaptureSlotKey(rule, g)), Use(r + g)))]
  }

  lemma {:induction false} GroupsStep(t: Tables, u: Tables, r: nat, rule: string, g: nat)
    ensures GroupsCode(t, r, rule, g + 1) == GroupsCode(t, r, rule, g) + GroupCode(t, r, rule, g)
    ensures ScanCaptures(u, rule, g + 1) == AddSlot(ScanCaptures(u, rule, g), CaptureSlotKey(rule, g))
  {
  }

  lemma {:induction false} GroupsNone(t: Tables, u: Tables, r: nat, rule: string)
    ensures GroupsCode(t, r, rule, 0) == [] && ScanCaptures(u, rule, 0) == u
  {
  }

  function StoreCode(t: Tables, r: nat, hr: HeaderRule, idx: nat, name: Operand, hv: Option<Operand>): seq<Call> {
    if IsPattern(hr.comparison)
    then GroupsCode(t, r, StoreName(hr, idx), CapturingGroups(hr.matchValue.PatternText()) + 1)
    else if hv.Some? then [Do(DoStore(SlotOf(t, StoreName(hr, idx)), hv.value))]
    else [Ask(r, QHeader(name)), Do(DoStore(SlotOf(t, StoreName(hr, idx)), Use(r)))]
  }

  /** Everything a header-level action emits before any jump; `hv` is the value already fetched. */
  function HeaderCode(t: Tables, r: nat, hr: HeaderRule, idx: nat, name: Operand, hv: Option<Operand>): seq<Call> {
    match hr.action
    case AddHeader => ValueCode(t, r, hr.newValue) + [Do(DoAdd(name, ValueOperand(r, hr.newValue)))]
    case ReplaceHeader => SetCode(t, r, hr, name)
    case Manipulate => SetCode(t, r, hr, name)
    case Delete => [Do(DoDelete(name))]
    case DeleteHeader => [Do(DoDelete(name))]
    case StoreHeader => StoreCode(t, r, hr, idx, name, hv)
    case LogHeader => ValueCode(t, r, hr.newValue) + [Do(DoLog(TextOperand(r, hr.newValue, hr.name)))]
    case RejectHeader => ValueCode(t, r, hr.newValue) + [Do(DoReject(403, TextOperand(r, hr.newValue, hr.name)))]
    case _ => []
  }

  function SetCode(t: Tables, r: nat, hr: HeaderRule, name: Operand): seq<Call> {
    if SetsHeader(hr) then ValueCode(t, r, hr.newValue) + [Do(DoSet(name, ValueOperand(r, hr.newValue)))] else []
  }

  lemma {:induction false} GroupsRun(t: Tables, r: nat, rule: string, n: nat, m: Machine)
    ensures var after := RunCalls(GroupsCode(t, r, rule, n), Some(m));
      after.Some? && after.value.state == OnContext(m.state, StoreCaptures(t, rule, n, m.state.ctx))
  {
    if n > 0 {
      GroupsRun(t, r, rule, n - 1, m);
      RunAppend(GroupsCode(t, r, rule, n - 1), GroupCode(t, r, rule, n - 1), Some(m));
      GroupRuns(t, r, rule, n - 1, RunCalls(GroupsCode(t, r, rule, n - 1), Some(m)).value);
    }
  }

  lemma {:induction false} GroupRuns(t: Tables, r: nat, rule: string, g: nat, m: Machine)
    ensures var after := RunCalls(GroupCode(t, r, rule, g), Some(m));
      after.Some? && after.value.state ==
        OnContext(m.state, RtStore(m.state.ctx, SlotOf(t, CaptureSlotKey(rule, g)), RtGetCapture(m.state.ctx, g)))
  {
    hide Exec, RunCalls, CaptureSlotKey, SlotOf;
    var slot, text := SlotOf(t, CaptureSlotKey(rule, g)), RtGetCapture(m.state.ctx, g);
    var n := Machine(m.env[r + g := text], m.state);
    RunTwo(Ask(r + g, QCapture(g)), Do(DoStore(slot, Use(r + g))), Some(m));
    AskRuns(r + g, QCapture(g), m, text);
    DoRuns(DoStore(slot, Use(r + g)), n, OnContext(m.state, RtStore(m.state.ctx, slot, text)));
  }

  predicate Below(op: Operand, r: nat) {
    op.Use? ==> op.temp < r
  }

  lemma {:induction false} StillReads(t: Tables, r: nat, v: Value, op: Operand, m: Machine)
    requires Below(op, r)
    ensures TextOf(op, ValueEnv(t, r, v, m)) == TextOf(op, m.env)
  {
    hide ValueText;
  }

  /** A value, then an action on `name` and the value. */
  lemma {:induction false} SetRuns(t: Tables, r: nat, hr: HeaderRule, name: Operand, v: Value, add: bool, m: Machine)
    requires Below(name, r) && TextOf(name, m.env) == Some(hr.headerName)
    ensures
      var a := if add then DoAdd(name, ValueOperand(r, v)) else DoSet(name, ValueOperand(r, v));
      var e, text := Evaluated(t, v, m.state), ValueText(t, v, m.state.ctx);
      var after := RunCalls(ValueCode(t, r, v) + [Do(a)], Some(m));
      after.Some? && after.value.state ==
        if add then RtAddHeader(e, hr.headerName, text) else RtSetHeader(e, hr.headerName, text)
  {
    hide RunCalls, ValueCode, ValueText, Evaluated, ValueEnv, ValueOperand;
    var a := if add then DoAdd(name, ValueOperand(r, v)) else DoSet(name, ValueOperand(r, v));
    ValueThen(t, r, v, a, m);
    StillReads(t, r, v, name, m);
    ValueOperandReads(t, r, v, "", m);
  }

  lemma {:induction false} ReportRuns(t: Tables, r: nat, v: Value, name: string, reject: bool, m: Machine)
    ensures
      var op := TextOperand(r, v, name);
      var e, text := Evaluated(t, v, m.state), MessageOr(t, v, name, m.state.ctx);
      var after := RunCalls(ValueCode(t, r, v) + [Do(if reject then DoReject(403, op) else DoLog(op))], Some(m));
      after.Some? && after.value.state ==
        OnContext(e, if reject then RtReject(e.ctx, 403, text) else RtLog(e.ctx, text))
  {
    hide RunCalls, ValueCode, MessageOr, Evaluated, ValueEnv, TextOperand;
    var op := TextOperand(r, v, name);
    ValueThen(t, r, v, if reject then DoReject(403, op) else DoLog(op), m);
    ValueOperandReads(t, r, v, name, m);
  }

  lemma {:induction false} DeleteRuns(name: Operand, header: string, m: Machine)
    requires TextOf(name, m.env) == Some(header)
    ensures RunCalls([Do(DoDelete(name))], Some(m)) == Some(Machine(m.env, RtDeleteHeader(m.state, header)))
  {
    hide RunCalls;
    RunOne(Do(DoDelete(name)), Some(m));
  }

  lemma {:induction false} StoreRuns(t: Tables, r: nat, hr: HeaderRule, idx: nat, name: Operand, hv: Option<Operand>, m: Machine)
    requires TextOf(name, m.env) == Some(hr.headerName)
    requires hv.Some? ==> TextOf(hv.value, m.env) == Some(GetHeader(m.state.msg, hr.headerName))
    ensures var after := RunCalls(StoreCode(t, r, hr, idx, name, hv), Some(m));
      after.Some? && after.value.state == StoreMeaning(t, hr, idx, m.state)
  {
    hide RunCalls, Exec, GroupsCode, StoreCaptures, SlotOf;
    if IsPattern(hr.comparison) {
      GroupsRun(t, r, StoreName(hr, idx), CapturingGroups(hr.matchValue.PatternText()) + 1, m);
    } else {
      var slot, text := SlotOf(t, StoreName(hr, idx)), GetHeader(m.state.msg, hr.headerName);
      var s := OnContext(m.state, RtStore(m.state.ctx, slot, text));
      if hv.Some? {
        RunOne(Do(DoStore(slot, hv.value)), Some(m));
        DoRuns(DoStore(slot, hv.value), m, s);
      } else {
        RunTwo(Ask(r, QHeader(name)), Do(DoStore(slot, Use(r))), Some(m));
        AskRuns(r, QHeader(name), m, text);
        DoRuns(DoStore(slot, Use(r)), Machine(m.env[r := text], m.state), s);
      }
    }
  }

  /** Header-action code leaves exactly the state the action means. */
  lemma {:induction false} HeaderRuns(t: Tables, r: nat, hr: HeaderRule, idx: nat, name: Operand, hv: Option<Operand>, m: Machine)
    requires Below(name, r) && TextOf(name, m.env) == Some(hr.headerName)
    requires hv.Some? ==> TextOf(hv.value, m.env) == Some(GetHeader(m.state.msg, hr.headerName))
    ensures var after := RunCalls(HeaderCode(t, r, hr, idx, name, hv), Some(m));
      after.Some? && after.value.state == HeaderAct(t, hr, idx, m.state).state && Keeps(m.env, after.value.env, r)
  {
    hide RunCalls, HeaderCode, HeaderAct, Numbered, Keeps;
    HeaderReaches(t, r, hr, idx, name, hv, m);
    var known := Operands(name) + if hv.Some? then Operands(hv.value) else {};
    HeaderNumbered(t, r, hr, idx, name, hv, known);
    NumberedKeeps(HeaderCode(t, r, hr, idx, name, hv), r, known, m);
  }

  lemma {:induction false} HeaderReaches(t: Tables, r: nat, hr: HeaderRule, idx: nat, name: Operand, hv: Option<Operand>, m: Machine)
    requires Below(name, r) && TextOf(name, m.env) == Some(hr.headerName)
    requires hv.Some? ==> TextOf(hv.value, m.env) == Some(GetHeader(m.state.msg, hr.headerName))
    ensures var after := RunCalls(HeaderCode(t, r, hr, idx, name, hv), Some(m));
      after.Some? && after.value.state == HeaderAct(t, hr, idx, m.state).state
  {
    hide RunCalls, ValueCode, StoreCode, StoreMeaning, MessageOr, ValueText, Evaluated, ValueOperand, TextOperand;
    match hr.action
    case AddHeader => SetRuns(t, r, hr, name, hr.newValue, true, m);
    case ReplaceHeader => SetCodeRuns(t, r, hr, name, m);
    case Manipulate => SetCodeRuns(t, r, hr, name, m);
    case Delete => DeleteRuns(name, hr.headerName, m);
    case DeleteHeader => DeleteRuns(name, hr.headerName, m);
    case StoreHeader => StoreRuns(t, r, hr, idx, name, hv, m);
    case LogHeader => ReportRuns(t, r, hr.newValue, hr.name, false, m);
    case RejectHeader => ReportRuns(t, r, hr.newValue, hr.name, true, m);
    case _ => RunNone(Some(m));
  }

  lemma {:induction false} SetCodeRuns(t: Tables, r: nat, hr: HeaderRule, name: Operand, m: Machine)
    requires Below(name, r) && TextOf(name, m.env) == Some(hr.headerName)
    ensures var after := RunCalls(SetCode(t, r, hr, name), Some(m));
      after.Some? && after.value.state ==
        if SetsHeader(hr)
        then RtSetHeader(Evaluated(t, hr.newValue, m.state), hr.headerName, ValueText(t, hr.newValue, m.state.ctx))
        else m.state
  {
    hide RunCalls, ValueCode, ValueText, Evaluated, ValueOperand;
    RunNone(Some(m));
    SetRuns(t, r, hr, name, hr.newValue, false, m);
  }

  // ---- what guards and element rules read ----------------------------------

  function PatternId(t: Tables, cmp: ComparisonType, mv: Value): nat {
    if IsPattern(cmp) then RegexOf(t, EntryFor(cmp, mv.PatternText())) else 0
  }

  predicate NeedsHeader(hr: HeaderRule) {
    !hr.matchValue.Empty() || hr.action.StoreHeader?
  }

  /** The operand of the fetched header, if one was fetched into temporary `r`. */
  function Fetched(hr: HeaderRule, r: nat): Option<Operand> {
    if NeedsHeader(hr) then Some(Use(r)) else None
  }

  function Subject(hr: HeaderRule, r: nat): Operand {
    if NeedsHeader(hr) then Use(r) else Lit("")
  }

  function ReadTemp(r: nat, elem: nat): nat {
    if elem == URI_WHOLE then r else r + 1
  }

  /** Reads the header, and then the element when it is not the whole value. */
  function ReadCalls(r: nat, name: Operand, elem: nat): seq<Call> {
    [Ask(r, QHeader(name))] + if elem == URI_WHOLE then [] else [Ask(r + 1, QUriGet(Use(r), elem))]
  }

  // ---- element actions -----------------------------------------------------

  function WriteCode(r: nat, name: Operand, hv: Operand, elem: nat, text: Operand): seq<Call> {
    if elem == URI_WHOLE then [Do(DoSet(name, text))]
    else [Ask(r, QUriSet(hv, elem, text)), Do(DoSet(name, Use(r)))]
  }

  function ElementCode(
    t: Tables, r: nat, hr: HeaderRule, er: ElementRule, name: Operand, elem: nat, hv: Operand, ev: Operand): seq<Call>
  {
    match er.action
    case ReplaceElement =>
      ValueCode(t, r, er.newValue) + WriteCode(r + ValueTemps(er.newValue), name, hv, elem, ValueOperand(r, er.newValue))
    case DeleteElement => if elem == URI_WHOLE then [Do(DoDelete(name))] else WriteCode(r, name, hv, elem, Lit(""))
    case StoreElement => [Do(DoStore(SlotOf(t, ElementStoreName(hr, er)), ev))]
    case RejectElement => ValueCode(t, r, er.newValue) + [Do(DoReject(403, TextOperand(r, er.newValue, er.name)))]
    case _ => []
  }

  lemma {:induction false} WriteRuns(r: nat, name: Operand, header: string, hv: Operand, value: string, elem: nat, text: Operand,
                  written: string, m: Machine)
    requires Below(name, r) && TextOf(name, m.env) == Some(header) && TextOf(hv, m.env) == Some(value)
    requires TextOf(text, m.env) == Some(written)
    ensures var after := RunCalls(WriteCode(r, name, hv, elem, text), Some(m));
      after.Some? && after.value.state == WriteElement(m.state, header, value, elem, written)
  {
    hide RunCalls, Exec, RtUriSet, RtSetHeader;
    if elem == URI_WHOLE {
      RunOne(Do(DoSet(name, text)), Some(m));
      DoRuns(DoSet(name, text), m, RtSetHeader(m.state, header, written));
    } else {
      var built := RtUriSet(m.state.ctx, value, elem, written);
      var n := Machine(m.env[r := built.1], OnContext(m.state, built.0));
      RunTwo(Ask(r, QUriSet(hv, elem, text)), Do(DoSet(name, Use(r))), Some(m));
      AskRuns(r, QUriSet(hv, elem, text), m, built.1);
      DoRuns(DoSet(name, Use(r)), n, RtSetHeader(n.state, header, built.1));
    }
  }

  lemma {:induction false} ReplaceRuns(t: Tables, r: nat, hr: HeaderRule, v: Value, name: Operand, elem: nat, hv: Operand,
                    value: string, m: Machine)
    requires Below(name, r) && Below(hv, r)
    requires TextOf(name, m.env) == Some(hr.headerName) && TextOf(hv, m.env) == Some(value)
    ensures
      var code := ValueCode(t, r, v) + WriteCode(r + ValueTemps(v), name, hv, elem, ValueOperand(r, v));
      var after := RunCalls(code, Some(m));
      after.Some? && after.value.state ==
        WriteElement(Evaluated(t, v, m.state), hr.headerName, value, elem, ValueText(t, v, m.state.ctx))
  {
    hide RunCalls, ValueCode, ValueText, Evaluated, ValueEnv, ValueOperand, WriteCode, WriteElement;
    var n := Machine(ValueEnv(t, r, v, m), Evaluated(t, v, m.state));
    var text := ValueText(t, v, m.state.ctx);
    ValueRuns(t, r, v, m);
    RunAppend(ValueCode(t, r, v), WriteCode(r + ValueTemps(v), name, hv, elem, ValueOperand(r, v)), Some(m));
    StillReads(t, r, v, name, m);
    StillReads(t, r, v, hv, m);
    ValueOperandReads(t, r, v, "", m);
    WriteRuns(r + ValueTemps(v), name, hr.headerName, hv, value, elem, ValueOperand(r, v), text, n);
  }

  /** Element-action code leaves exactly the state the action means. */
  lemma {:induction false} ElementRuns(t: Tables, r: nat, hr: HeaderRule, er: ElementRule, name: Operand, elem: nat, hv: Operand,
                    ev: Operand, value: string, part: string, m: Machine)
    requires Below(name, r) && Below(hv, r)
    requires TextOf(name, m.env) == Some(hr.headerName) && TextOf(hv, m.env) == Some(value)
    requires TextOf(ev, m.env) == Some(part)
    ensures var after := RunCalls(ElementCode(t, r, hr, er, name, elem, hv, ev), Some(m));
      && after.Some? && after.value.state == ElementAct(t, hr, er, elem, value, part, m.state).state
      && Keeps(m.env, after.value.env, r)
  {
    hide RunCalls, ElementCode, ElementAct, Numbered, Keeps;
    ElementReaches(t, r, hr, er, name, elem, hv, ev, value, part, m);
    var known := Operands(name) + Operands(hv) + Operands(ev);
    ElementNumbered(t, r, hr, er, name, elem, hv, ev, known);
    NumberedKeeps(ElementCode(t, r, hr, er, name, elem, hv, ev), r, known, m);
  }

  lemma {:induction false} ElementReaches(t: Tables, r: nat, hr: HeaderRule, er: ElementRule, name: Operand, elem: nat, hv: Operand,
                    ev: Operand, value: string, part: string, m: Machine)
    requires Below(name, r) && Below(hv, r)
    requires TextOf(name, m.env) == Some(hr.headerName) && TextOf(hv, m.env) == Some(value)
    requires TextOf(ev, m.env) == Some(part)
    ensures var after := RunCalls(ElementCode(t, r, hr, er, name, elem, hv, ev), Some(m));
      after.Some? && after.value.state == ElementAct(t, hr, er, elem, value, part, m.state).state
  {
    hide RunCalls, ValueCode, MessageOr, ValueText, Evaluated, ValueOperand, TextOperand, WriteCode, WriteElement;
    hide SlotOf;
    match er.action
    case ReplaceElement => ReplaceRuns(t, r, hr, er.newValue, name, elem, hv, value, m);
    case DeleteElement =>
      if elem == URI_WHOLE {
        DeleteRuns(name, hr.headerName, m);
      } else {
        WriteRuns(r, name, hr.headerName, hv, value, elem, Lit(""), "", m);
      }
    case StoreElement =>
      var store := DoStore(SlotOf(t, ElementStoreName(hr, er)), ev);
      RunOne(Do(store), Some(m));
    case RejectElement => ReportRuns(t, r, er.newValue, er.name, true, m);
    case _ => RunNone(Some(m));
  }

  // ---- facts both correctness proofs use ------------------------------------

  lemma {:induction false} UntestedGuard(t: Tables, hr: HeaderRule, a: string, b: string, ctx: Context)
    requires hr.matchValue.Empty()
    ensures Guard(t, hr.comparison, AnyValue, hr.matchValue, a, ctx) ==
            Guard(t, hr.comparison, AnyValue, hr.matchValue, b, ctx)
  {
  }

  lemma {:induction false} WholeComponent(hv: string)
    ensures Uri.Component(hv, URI_WHOLE) == hv
  {
  }

  lemma {:induction false} ElementActFlow(
    t: Tables, hr: HeaderRule, er: ElementRule, elem: nat, hv: string, ev: string, s: State)
    ensures ElementAct(t, hr, er, elem, hv, ev, s).flow.Rejected? <==> er.action.RejectElement?
  {
    hide ValueText, Evaluated, WriteElement, MessageOr;
  }

  lemma {:induction false} HeaderActFlow(t: Tables, hr: HeaderRule, idx: nat, s: State)
    ensures HeaderAct(t, hr, idx, s).flow.Rejected? <==> hr.action.RejectHeader?
  {
    hide ValueText, Evaluated, MessageOr, StoreMeaning;
  }

  lemma {:induction false} ReadCallsRun(r: nat, name: Operand, header: string, elem: nat, m: Machine) returns (after: Machine)
    requires TextOf(name, m.env) == Some(header) && Below(name, r)
    ensures RunCalls(ReadCalls(r, name, elem), Some(m)) == Some(after) && after.state == m.state
    ensures TextOf(name, after.env) == Some(header)
    ensures
      var hv := GetHeader(m.state.msg, header);
      TextOf(Use(r), after.env) == Some(hv) && TextOf(Use(ReadTemp(r, elem)), after.env) == Some(Uri.Component(hv, elem))
  {
    hide RunCalls, Uri.ComponentAt, Uri.CutsOf;
    var hv := GetHeader(m.state.msg, header);
    var one := Machine(m.env[r := hv], m.state);
    RunOne(Ask(r, QHeader(name)), Some(m));
    if elem == URI_WHOLE {
      after := one;
      WholeComponent(hv);
      assert ReadCalls(r, name, elem) == [Ask(r, QHeader(name))];
    } else {
      after := Machine(one.env[r + 1 := Uri.Component(hv, elem)], m.state);
      RunOne(Ask(r + 1, QUriGet(Use(r), elem)), Some(one));
      RunAppend([Ask(r, QHeader(name))], [Ask(r + 1, QUriGet(Use(r), elem))], Some(m));
    }
  }

  lemma {:induction false} SegmentCodeStep(t: Tables, segments: seq<Segment>, i: nat)
    requires i < |segments|
    ensures SegmentsCode(t, segments[..i + 1]) == SegmentsCode(t, segments[..i]) + SegmentCode(t, segments[i])
    ensures ScanSegments(t, segments[..i + 1]) == ScanSegment(ScanSegments(t, segments[..i]), segments[i])
  {
    assert segments[..i + 1][..i] == segments[..i];
  }

  lemma {:induction false} SingleScan(t: Tables, seg: Segment)
    ensures ScanSegments(t, [seg]) == ScanSegment(t, seg)
  {
    assert [seg][..0] == [];
  }

  // ---- numbering of temporaries --------------------------------------------

  lemma {:induction false} NumberedOne(c: Call, r: nat, known: set<nat>)
    requires NumberedLast(c, r, 0, known)
    ensures Numbered([c], r, known) && Asks([c]) == if c.Ask? then 1 else 0
  {
    assert [c][..0] == [];
  }

  lemma {:induction false} SegmentNumbered(t: Tables, seg: Segment, r: nat, known: set<nat>)
    ensures Numbered(SegmentCode(t, seg), r, known) && Asks(SegmentCode(t, seg)) == 0
  {
    NumberedNone(r, known);
    if SegmentCode(t, seg) != [] {
      NumberedOne(Do(AppendAction(t, seg)), r, known);
    }
  }

  lemma {:induction false} SegmentsNumbered(t: Tables, segments: seq<Segment>, r: nat, known: set<nat>)
    ensures Numbered(SegmentsCode(t, segments), r, known) && Asks(SegmentsCode(t, segments)) == 0
  {
    hide Numbered, Asks, SegmentCode;
    NumberedNone(r, known);
    if segments != [] {
      var front, last := segments[..|segments| - 1], segments[|segments| - 1];
      SegmentsNumbered(t, front, r, known);
      SegmentNumbered(t, last, r, known);
      NumberedAppend(SegmentsCode(t, front), SegmentCode(t, last), r, known, known);
    }
  }

  lemma {:induction false} ValueNumbered(t: Tables, r: nat, v: Value, known: set<nat>)
    ensures Numbered(ValueCode(t, r, v), r, known) && Asks(ValueCode(t, r, v)) == ValueTemps(v)
  {
    if v.Empty() || v.IsPureLiteral() {
    } else if v.IsSingleRef() {
      NumberedOne(Ask(r, RefQuery(t, v.segments[0].ref)), r, known);
    } else {
      NumberedOne(Do(DoReset), r, known);
      SegmentsNumbered(t, v.segments, r, known);
      NumberedAppend([Do(DoReset)], SegmentsCode(t, v.segments), r, known, known);
      NumberedOne(Ask(r, QFinish), r, known);
      NumberedAppend([Do(DoReset)] + SegmentsCode(t, v.segments), [Ask(r, QFinish)], r, known, known);
    }
  }

  predicate Known(op: Operand, known: set<nat>) {
    op.Use? ==> op.temp in known
  }

  lemma {:induction false} ValueThenNumbered(t: Tables, r: nat, v: Value, a: Action, known: set<nat>)
    requires forall x <- ActionUses(a) :: x in known || r <= x < r + ValueTemps(v)
    ensures Numbered(ValueCode(t, r, v) + [Do(a)], r, known)
    ensures Asks(ValueCode(t, r, v) + [Do(a)]) == ValueTemps(v)
  {
    hide Numbered, Asks, ValueCode, ValueTemps, ActionUses;
    var more := known + ActionUses(a);
    ValueNumbered(t, r, v, known);
    NumberedOne(Do(a), r + ValueTemps(v), more);
    NumberedAppend(ValueCode(t, r, v), [Do(a)], r, known, more);
  }

  lemma {:induction false} AskDoNumbered(r: nat, q: Query, a: Action, known: set<nat>)
    requires forall x <- QueryUses(q) :: x in known
    requires forall x <- ActionUses(a) :: x in known || x == r
    ensures Numbered([Ask(r, q), Do(a)], r, known) && Asks([Ask(r, q), Do(a)]) == 1
  {
    hide QueryUses, ActionUses;
    assert [Ask(r, q), Do(a)][..1] == [Ask(r, q)];
    NumberedOne(Ask(r, q), r, known);
  }

  lemma {:induction false} GroupsNumbered(t: Tables, r: nat, rule: string, n: nat, known: set<nat>)
    ensures Numbered(GroupsCode(t, r, rule, n), r, known) && Asks(GroupsCode(t, r, rule, n)) == n
  {
    if n > 0 {
      GroupsNumbered(t, r, rule, n - 1, known);
      AskDoNumbered(r + n - 1, QCapture(n - 1), DoStore(SlotOf(t, CaptureSlotKey(rule, n - 1)), Use(r + n - 1)), known);
      NumberedAppend(GroupsCode(t, r, rule, n - 1), GroupCode(t, r, rule, n - 1), r, known, known);
    }
  }

  lemma {:induction false} NumberedNone(r: nat, known: set<nat>)
    ensures Numbered([], r, known) && Asks([]) == 0
  {
  }

  lemma {:induction false} StoreNumbered(
    t: Tables, r: nat, hr: HeaderRule, idx: nat, name: Operand, hv: Option<Operand>, known: set<nat>)
    requires Known(name, known) && (hv.Some? ==> Known(hv.value, known))
    ensures Numbered(StoreCode(t, r, hr, idx, name, hv), r, known)
  {
    hide Numbered, Asks, GroupsCode, SlotOf;
    var slot := SlotOf(t, StoreName(hr, idx));
    if IsPattern(hr.comparison) {
      GroupsNumbered(t, r, StoreName(hr, idx), CapturingGroups(hr.matchValue.PatternText()) + 1, known);
    } else if hv.Some? {
      NumberedOne(Do(DoStore(slot, hv.value)), r, known);
    } else {
      AskDoNumbered(r, QHeader(name), DoStore(slot, Use(r)), known);
    }
  }

  /** Header-action code reads only what it was given and what it defined itself. */
  lemma {:induction false} HeaderNumbered(
    t: Tables, r: nat, hr: HeaderRule, idx: nat, name: Operand, hv: Option<Operand>, known: set<nat>)
    requires Known(name, known) && (hv.Some? ==> Known(hv.value, known))
    ensures Numbered(HeaderCode(t, r, hr, idx, name, hv), r, known)
  {
    hide Numbered, Asks, ValueCode, StoreCode;
    var v := hr.newValue;
    match hr.action
    case AddHeader => ValueThenNumbered(t, r, v, DoAdd(name, ValueOperand(r, v)), known);
    case ReplaceHeader => NumberedNone(r, known); ValueThenNumbered(t, r, v, DoSet(name, ValueOperand(r, v)), known);
    case Manipulate => NumberedNone(r, known); ValueThenNumbered(t, r, v, DoSet(name, ValueOperand(r, v)), known);
    case Delete => NumberedOne(Do(DoDelete(name)), r, known);
    case DeleteHeader => NumberedOne(Do(DoDelete(name)), r, known);
    case StoreHeader => StoreNumbered(t, r, hr, idx, name, hv, known);
    case LogHeader => ValueThenNumbered(t, r, v, DoLog(TextOperand(r, v, hr.name)), known);
    case RejectHeader => ValueThenNumbered(t, r, v, DoReject(403, TextOperand(r, v, hr.name)), known);
    case _ => NumberedNone(r, known);
  }

  lemma {:induction false} WriteNumbered(r: nat, name: Operand, hv: Operand, elem: nat, text: Operand, known: set<nat>)
    requires Known(name, known) && Known(hv, known) && Known(text, known)
    ensures Numbered(WriteCode(r, name, hv, elem, text), r, known)
  {
    hide Numbered, Asks;
    if elem == URI_WHOLE {
      NumberedOne(Do(DoSet(name, text)), r, known);
    } else {
      AskDoNumbered(r, QUriSet(hv, elem, text), DoSet(name, Use(r)), known);
    }
  }

  /** Element-action code reads only what it was given and what it defined itself. */
  lemma {:induction false} ElementNumbered(
    t: Tables, r: nat, hr: HeaderRule, er: ElementRule, name: Operand, elem: nat, hv: Operand, ev: Operand,
    known: set<nat>)
    requires Known(name, known) && Known(hv, known) && Known(ev, known)
    ensures Numbered(ElementCode(t, r, hr, er, name, elem, hv, ev), r, known)
  {
    hide Numbered, Asks, ValueCode, WriteCode;
    var v := er.newValue;
    match er.action
    case ReplaceElement =>
      var more := known + Operands(ValueOperand(r, v));
      ValueNumbered(t, r, v, known);
      WriteNumbered(r + ValueTemps(v), name, hv, elem, ValueOperand(r, v), more);
      NumberedAppend(ValueCode(t, r, v), WriteCode(r + ValueTemps(v), name, hv, elem, ValueOperand(r, v)), r, known, more);
    case DeleteElement =>
      NumberedOne(Do(DoDelete(name)), r, known);
      WriteNumbered(r, name, hv, elem, Lit(""), known);
    case StoreElement => NumberedOne(Do(DoStore(SlotOf(t, ElementStoreName(hr, er)), ev)), r, known);
    case RejectElement => ValueThenNumbered(t, r, v, DoReject(403, TextOperand(r, v, er.name)), known);
    case _ => NumberedNone(r, known);
  }

  lemma {:induction false} ReadNumbered(r: nat, name: Operand, elem: nat, known: set<nat>)
    requires Known(name, known)
    ensures Numbered(ReadCalls(r, name, elem), r, known) && r + Asks(ReadCalls(r, name, elem)) == ReadTemp(r, elem) + 1
  {
    hide Numbered, Asks;
    var ask, get := Ask(r, QHeader(name)), Ask(r + 1, QUriGet(Use(r), elem));
    NumberedOne(ask, r, known);
    if elem == URI_WHOLE {
      assert ReadCalls(r, name, elem) == [ask];
    } else {
      NumberedOne(get, r + 1, known + {r});
      NumberedAppend([ask], [get], r, known, known + {r});
    }
  }
}
