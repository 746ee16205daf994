/**
 The meaning of a ruleset: what applying it to a message in a context does, given the
 slot and regex numbering; and the numbering itself, assigned in one walk over the rules.
 */
module Semantics {
  import opened Text
  import opened Ast
  import opened Lowering
  import opened Message
  import opened Runtime
  import Uri

  // ---- numbering -----------------------------------------------------------

  datatype Tables = Tables(slots: map<string, nat>, regexes: seq<RegexEntry>)

  const NO_TABLES := Tables(map[], [])

  function AddSlot(t: Tables, name: string): Tables {
    if name in t.slots then t else t.(slots := t.slots[name := |t.slots|])
  }

  /** Index of a pattern in a regex table, or its length. */
  function RegexIndex(regexes: seq<RegexEntry>, e: RegexEntry): (i: nat)
    ensures i <= |regexes|
    ensures i < |regexes| ==> regexes[i] == e
    ensures forall k :: 0 <= k < i ==> regexes[k] != e
  {
    if regexes == [] || regexes[0] == e then 0 else 1 + RegexIndex(regexes[1..], e)
  }

  function AddRegex(t: Tables, e: RegexEntry): Tables {
    if RegexIndex(t.regexes, e) < |t.regexes| then t else t.(regexes := t.regexes + [e])
  }

  /** Lookups once the tables are frozen: an unknown name or pattern falls back to 0. */
  function SlotOf(t: Tables, name: string): nat {
    if name in t.slots then t.slots[name] else 0
  }

  function RegexOf(t: Tables, e: RegexEntry): nat {
    var i := RegexIndex(t.regexes, e);
    if i < |t.regexes| then i else 0
  }

  function EntryFor(cmp: ComparisonType, pattern: string): RegexEntry {
    RegexEntry(pattern, if IsCaseInsensitive(cmp) then 1 else 0)
  }

  // ---- the scan ------------------------------------------------------------

  /** A back-reference needs the slot it loads. */
  function ScanSegment(t: Tables, seg: Segment): Tables {
    if seg.Reference? && seg.ref.kind == RuleRef then AddSlot(t, RefSlotKey(seg.ref)) else t
  }

  function ScanSegments(t: Tables, segments: seq<Segment>): Tables {
    if segments == [] then t
    else ScanSegment(ScanSegments(t, segments[..|segments| - 1]), segments[|segments| - 1])
  }

  function ScanValue(t: Tables, v: Value): Tables {
    if v.Empty() || v.IsPureLiteral() then t else ScanSegments(t, v.segments)
  }

  /** Whether a match-value is tested at all: references are not, and always pass. */
  predicate Tested(mv: Value) {
    !mv.Empty() && (mv.IsRegexLiteral() || mv.IsPureLiteral())
  }

  function ScanGuard(t: Tables, cmp: ComparisonType, mv: Value): Tables {
    if Tested(mv) && IsPattern(cmp) then AddRegex(t, EntryFor(cmp, mv.PatternText())) else t
  }

  /** The slots of captures 0..n-1 of a store rule. */
  function ScanCaptures(t: Tables, rule: string, n: nat): Tables {
    if n == 0 then t else AddSlot(ScanCaptures(t, rule, n - 1), CaptureSlotKey(rule, n - 1))
  }

  function ScanStore(t: Tables, hr: HeaderRule, idx: nat): Tables {
    if IsPattern(hr.comparison)
    then ScanCaptures(t, StoreName(hr, idx), CapturingGroups(hr.matchValue.PatternText()) + 1)
    else AddSlot(t, StoreName(hr, idx))
  }

  /** A header-level replacement applies only without element rules. */
  predicate SetsHeader(hr: HeaderRule) {
    !hr.newValue.Empty() && hr.elementRules == []
  }

  function ScanHeaderAction(t: Tables, hr: HeaderRule, idx: nat): Tables {
    match hr.action
    case AddHeader => ScanValue(t, hr.newValue)
    case ReplaceHeader => if SetsHeader(hr) then ScanValue(t, hr.newValue) else t
    case Manipulate => if SetsHeader(hr) then ScanValue(t, hr.newValue) else t
    case StoreHeader => ScanStore(t, hr, idx)
    case LogHeader => ScanValue(t, hr.newValue)
    case RejectHeader => ScanValue(t, hr.newValue)
    case _ => t
  }

  function ScanElementAction(t: Tables, hr: HeaderRule, er: ElementRule): Tables {
    match er.action
    case ReplaceElement => ScanValue(t, er.newValue)
    case StoreElement => AddSlot(t, ElementStoreName(hr, er))
    case RejectElement => ScanValue(t, er.newValue)
    case _ => t
  }

  function ScanElement(t: Tables, hr: HeaderRule, er: ElementRule): Tables {
    if UriElement(er.kind).None? then t
    else ScanElementAction(ScanGuard(t, er.comparison, er.matchValue), hr, er)
  }

  function ScanElements(t: Tables, hr: HeaderRule, n: nat): Tables
    requires n <= |hr.elementRules|
  {
    if n == 0 then t else ScanElement(ScanElements(t, hr, n - 1), hr, hr.elementRules[n - 1])
  }

  /** A header-level reject skips the element rules. */
  function ScanActed(t: Tables, hr: HeaderRule, idx: nat): Tables {
    if hr.action.RejectHeader? then ScanHeaderAction(t, hr, idx)
    else ScanElements(ScanHeaderAction(t, hr, idx), hr, |hr.elementRules|)
  }

  function ScanRule(t: Tables, hr: HeaderRule, idx: nat): Tables {
    ScanActed(ScanGuard(t, hr.comparison, hr.matchValue), hr, idx)
  }

  /** The numbering after the first `n` rules. */
  function ScanRules(t: Tables, rules: seq<HeaderRule>, n: nat): Tables
    requires n <= |rules|
  {
    if n == 0 then t else ScanRule(ScanRules(t, rules, n - 1), rules[n - 1], n - 1)
  }

  function TablesOf(rs: Ruleset): Tables {
    ScanRules(NO_TABLES, rs.headerRules, |rs.headerRules|)
  }

  // ---- the meaning ---------------------------------------------------------

  datatype Flow = Continue | Rejected

  datatype Outcome = Outcome(state: State, flow: Flow)

  function SegmentText(t: Tables, seg: Segment, ctx: Context): string {
    match seg
    case Literal(text) => text
    case Reference(ref) => RefText(t, ref, ctx)
  }

  function RefText(t: Tables, ref: ValueRef, ctx: Context): string {
    match ref.kind
    case Variable => RtGetVar(ctx, VariableId(ref.name))
    case Capture => RtGetCapture(ctx, CaptureNumber(ref))
    case RuleRef => RtLoad(ctx, SlotOf(t, RefSlotKey(ref)))
  }

  function SegmentsText(t: Tables, segments: seq<Segment>, ctx: Context): string {
    if segments == [] then ""
    else SegmentsText(t, segments[..|segments| - 1], ctx) + SegmentText(t, segments[|segments| - 1], ctx)
  }

  /** A value that is neither literal nor a single reference is built in the scratch buffer. */
  predicate Built(v: Value) {
    !v.Empty() && !v.IsPureLiteral() && !v.IsSingleRef()
  }

  function ValueText(t: Tables, v: Value, ctx: Context): string {
    if v.Empty() then ""
    else if v.IsPureLiteral() then v.LiteralText()
    else SegmentsText(t, v.segments, ctx)
  }

  /** The context after evaluating a value: only the scratch buffer can change. */
  function ValueContext(t: Tables, v: Value, ctx: Context): Context {
    if Built(v) then ctx.(scratch := ValueText(t, v, ctx)) else ctx
  }

  function MatchTypeOf(cmp: ComparisonType, mvt: MatchValType, pattern: string): nat {
    if IsPattern(cmp) then MATCH_REGEX
    else match mvt
      case Ip => IpMatchType(pattern)
      case Fqdn => MATCH_FQDN
      case AnyValue => if IsCaseInsensitive(cmp) then MATCH_EXACT_CI else MATCH_EXACT
  }

  /** Whether a guard passes, and the context with the captures it recorded. */
  ghost function Guard(
    t: Tables, cmp: ComparisonType, mvt: MatchValType, mv: Value, subject: string, ctx: Context): (Context, bool)
  {
    if !Tested(mv) then (ctx, true)
    else
      var pattern := mv.PatternText();
      var id := if IsPattern(cmp) then RegexOf(t, EntryFor(cmp, pattern)) else 0;
      var m := RtMatch(ctx, MatchTypeOf(cmp, mvt, pattern), subject, pattern, id);
      (m.0, m.1 != mv.negated)
  }

  /** Captures 0..n-1 of the last match, stored under the slots of `rule`. */
  function StoreCaptures(t: Tables, rule: string, n: nat, ctx: Context): Context {
    if n == 0 then ctx
    else
      RtStore(StoreCaptures(t, rule, n - 1, ctx), SlotOf(t, CaptureSlotKey(rule, n - 1)),
              RtGetCapture(StoreCaptures(t, rule, n - 1, ctx), n - 1))
  }

  function StoreMeaning(t: Tables, hr: HeaderRule, idx: nat, s: State): State {
    if IsPattern(hr.comparison)
    then s.(ctx := StoreCaptures(t, StoreName(hr, idx), CapturingGroups(hr.matchValue.PatternText()) + 1, s.ctx))
    else s.(ctx := RtStore(s.ctx, SlotOf(t, StoreName(hr, idx)), GetHeader(s.msg, hr.headerName)))
  }

  /** Evaluates a value, then lets `s` continue with the context it leaves. */
  function Evaluated(t: Tables, v: Value, s: State): State {
    s.(ctx := ValueContext(t, v, s.ctx))
  }

  function MessageOr(t: Tables, v: Value, name: string, ctx: Context): string {
    if v.Empty() then name else ValueText(t, v, ctx)
  }

  function HeaderAct(t: Tables, hr: HeaderRule, idx: nat, s: State): Outcome {
    var text := ValueText(t, hr.newValue, s.ctx);
    var e := Evaluated(t, hr.newValue, s);
    match hr.action
    case AddHeader => Outcome(RtAddHeader(e, hr.headerName, text), Continue)
    case ReplaceHeader => Outcome(if SetsHeader(hr) then RtSetHeader(e, hr.headerName, text) else s, Continue)
    case Manipulate => Outcome(if SetsHeader(hr) then RtSetHeader(e, hr.headerName, text) else s, Continue)
    case Delete => Outcome(RtDeleteHeader(s, hr.headerName), Continue)
    case DeleteHeader => Outcome(RtDeleteHeader(s, hr.headerName), Continue)
    case StoreHeader => Outcome(StoreMeaning(t, hr, idx, s), Continue)
    case LogHeader =>
      Outcome(e.(ctx := RtLog(e.ctx, MessageOr(t, hr.newValue, hr.name, s.ctx))), Continue)
    case RejectHeader =>
      Outcome(e.(ctx := RtReject(e.ctx, 403, MessageOr(t, hr.newValue, hr.name, s.ctx))), Rejected)
    case _ => Outcome(s, Continue)
  }

  /** Writes one element of the header value `hv` back into the header. */
  function WriteElement(s: State, name: string, hv: string, elem: nat, text: string): State {
    if elem == URI_WHOLE then RtSetHeader(s, name, text)
    else
      var r := RtUriSet(s.ctx, hv, elem, text);
      RtSetHeader(s.(ctx := r.0), name, r.1)
  }

  function ElementAct(t: Tables, hr: HeaderRule, er: ElementRule, elem: nat, hv: string, ev: string, s: State): Outcome {
    var text := ValueText(t, er.newValue, s.ctx);
    var e := Evaluated(t, er.newValue, s);
    match er.action
    case ReplaceElement => Outcome(WriteElement(e, hr.headerName, hv, elem, text), Continue)
    case DeleteElement =>
      Outcome(if elem == URI_WHOLE then RtDeleteHeader(s, hr.headerName)
              else WriteElement(s, hr.headerName, hv, elem, ""), Continue)
    case StoreElement =>
      Outcome(s.(ctx := RtStore(s.ctx, SlotOf(t, ElementStoreName(hr, er)), ev)), Continue)
    case RejectElement =>
      Outcome(e.(ctx := RtReject(e.ctx, 403, MessageOr(t, er.newValue, er.name, s.ctx))), Rejected)
    case _ => Outcome(s, Continue)
  }

  ghost function ElementMeaning(t: Tables, hr: HeaderRule, er: ElementRule, s: State): Outcome {
    if UriElement(er.kind).None? then Outcome(s, Continue)
    else
      var elem := UriElement(er.kind).value;
      var hv := GetHeader(s.msg, hr.headerName);
      var ev := Uri.Component(hv, elem);
      var g := Guard(t, er.comparison, er.matchValType, er.matchValue, ev, s.ctx);
      if g.1 then ElementAct(t, hr, er, elem, hv, ev, s.(ctx := g.0)) else Outcome(s.(ctx := g.0), Continue)
  }

  /** The outcome of the first `n` element rules. */
  ghost function Elements(t: Tables, hr: HeaderRule, n: nat, s: State): Outcome
    requires n <= |hr.elementRules|
  {
    if n == 0 then Outcome(s, Continue)
    else
      var before := Elements(t, hr, n - 1, s);
      if before.flow.Rejected? then before else ElementMeaning(t, hr, hr.elementRules[n - 1], before.state)
  }

  predicate TypePasses(hr: HeaderRule, m: Message) {
    (hr.msgType.Request? ==> m.start.isRequest) && (hr.msgType.Reply? ==> !m.start.isRequest)
  }

  predicate MethodPasses(hr: HeaderRule, m: Message) {
    hr.HasMethodFilter() ==> exists k :: 0 <= k < |hr.methods| && IEquals(m.start.verb, hr.methods[k])
  }

  ghost function Acted(t: Tables, hr: HeaderRule, idx: nat, s: State): Outcome {
    var a := HeaderAct(t, hr, idx, s);
    if a.flow.Rejected? then a else Elements(t, hr, |hr.elementRules|, a.state)
  }

  ghost function RuleMeaning(t: Tables, hr: HeaderRule, idx: nat, s: State): Outcome {
    if !TypePasses(hr, s.msg) || !MethodPasses(hr, s.msg) then Outcome(s, Continue)
    else
      var g := Guard(t, hr.comparison, AnyValue, hr.matchValue, GetHeader(s.msg, hr.headerName), s.ctx);
      if g.1 then Acted(t, hr, idx, s.(ctx := g.0)) else Outcome(s.(ctx := g.0), Continue)
  }

  /** The outcome of the first `n` rules; a reject ends the apply. */
  ghost function Rules(t: Tables, rules: seq<HeaderRule>, n: nat, s: State): Outcome
    requires n <= |rules|
  {
    if n == 0 then Outcome(s, Continue)
    else
      var before := Rules(t, rules, n - 1, s);
      if before.flow.Rejected? then before else RuleMeaning(t, rules[n - 1], n - 1, before.state)
  }

  /** What applying the whole ruleset does. */
  ghost function Meaning(rs: Ruleset, s: State): Outcome {
    Rules(TablesOf(rs), rs.headerRules, |rs.headerRules|, s)
  }

  lemma {:induction false} RejectedStays(t: Tables, rules: seq<HeaderRule>, m: nat, n: nat, s: State)
    requires m <= n <= |rules| && Rules(t, rules, m, s).flow.Rejected?
    ensures Rules(t, rules, n, s) == Rules(t, rules, m, s)
    decreases n
  {
    hide RuleMeaning;
    if m < n {
      RejectedStays(t, rules, m, n - 1, s);
    }
  }

  lemma {:induction false} ElementRejectStays(t: Tables, hr: HeaderRule, m: nat, n: nat, s: State)
    requires m <= n <= |hr.elementRules| && Elements(t, hr, m, s).flow.Rejected?
    ensures Elements(t, hr, n, s) == Elements(t, hr, m, s)
    decreases n
  {
    hide ElementMeaning;
    if m < n {
      ElementRejectStays(t, hr, m, n - 1, s);
    }
  }
}
