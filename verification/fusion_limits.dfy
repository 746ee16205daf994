/**
 Each condition of a safe fusion is needed: for each, a family of pairs the pass fuses
 that meet every other condition, and for which fusing changes the effect.
 */
module FusionLimits {
  import opened Text
  import opened Memory
  import opened Ast
  import opened Lowering
  import opened Runtime
  import opened Semantics
  import opened Optimizer
  import opened Fusion
  import M = Message
  import Numbering
  import Uri

  const NO_VALUE := Value("", [], false, false)

  function Quote(text: string): Value {
    Value(text, [Literal(text)], false, false)
  }

  function Manipulates(
    name: string, header: string, guard: Value, newValue: Value, rules: seq<ElementRule>): HeaderRule
  {
    HeaderRule(name, header, Manipulate, CaseSensitive, AnyMessage, [], guard, newValue, rules)
  }

  function Writes(text: string): ElementRule {
    ElementRule("w", "", HeaderValue, ReplaceElement, AnyValue, CaseSensitive, NO_VALUE, Quote(text))
  }

  function Stores(name: string): ElementRule {
    ElementRule(name, "", HeaderValue, StoreElement, AnyValue, CaseSensitive, NO_VALUE, NO_VALUE)
  }

  /** A message with the given headers, in a fresh context. */
  function Given(headers: seq<M.Header>): State {
    State(M.Message("", M.NO_START, headers, "", None),
          Context(0, [], [], (e, s) => None, [], false, [], "", [], false, 0, ""))
  }

  // ---- what the rules of the families do -----------------------------------

  lemma {:induction false} QuoteText(text: string)
    ensures Quote(text).IsPureLiteral() && Quote(text).LiteralText() == text
  {
    assert JoinLiterals(Quote(text).segments[1..]) == "" && text + "" == text;
  }

  lemma {:induction false} WritesMeans(t: Tables, hr: HeaderRule, text: string, s: State)
    requires text != ""
    ensures ElementMeaning(t, hr, Writes(text), s) == Outcome(RtSetHeader(s, hr.headerName, text), Continue)
  {
    hide Uri.Component, M.GetHeader, RtSetHeader;
    QuoteText(text);
  }

  lemma {:induction false} StoresMeans(t: Tables, hr: HeaderRule, name: string, s: State)
    ensures ElementMeaning(t, hr, Stores(name), s).state.msg == s.msg
    ensures ElementMeaning(t, hr, Stores(name), s).state.ctx.used == s.ctx.used
    ensures ElementMeaning(t, hr, Stores(name), s).flow.Continue?
  {
    hide Uri.Component, M.GetHeader;
  }

  /** With at most one element rule, a rule is its guard and that element rule. */
  lemma {:induction false} GuardedWrite(t: Tables, hr: HeaderRule, x: string, y: string, idx: nat, s: State)
    requires x != "" && y != "" && hr == Manipulates(hr.name, hr.headerName, Quote(x), NO_VALUE, [Writes(y)])
    ensures RuleMeaning(t, hr, idx, s) ==
      Outcome(if M.GetHeader(s.msg, hr.headerName) == x then RtSetHeader(s, hr.headerName, y) else s, Continue)
  {
    hide ElementMeaning, M.GetHeader, RtSetHeader;
    QuoteText(x);
    OneElement(t, hr, s);
    WritesMeans(t, hr, y, s);
  }

  lemma {:induction false} OneElement(t: Tables, hr: HeaderRule, s: State)
    requires |hr.elementRules| == 1
    ensures Elements(t, hr, 1, s) == ElementMeaning(t, hr, hr.elementRules[0], s)
  {
    hide ElementMeaning;
    assert Elements(t, hr, 0, s) == Outcome(s, Continue);
  }

  lemma {:induction false} TwoElements(t: Tables, hr: HeaderRule, s: State)
    requires |hr.elementRules| == 2 && ElementMeaning(t, hr, hr.elementRules[0], s).flow.Continue?
    ensures Elements(t, hr, 2, s) ==
            ElementMeaning(t, hr, hr.elementRules[1], ElementMeaning(t, hr, hr.elementRules[0], s).state)
  {
    hide ElementMeaning;
    assert Elements(t, hr, 0, s) == Outcome(s, Continue);
    assert Elements(t, hr, 1, s) == ElementMeaning(t, hr, hr.elementRules[0], s);
  }

  lemma {:induction false} GuardedWrites(t: Tables, hr: HeaderRule, x: string, y: string, z: string, idx: nat, s: State)
    requires x != "" && y != "" && z != ""
    requires hr == Manipulates(hr.name, hr.headerName, Quote(x), NO_VALUE, [Writes(y), Writes(z)])
    requires M.GetHeader(s.msg, hr.headerName) == x
    ensures RuleMeaning(t, hr, idx, s) ==
      Outcome(RtSetHeader(RtSetHeader(s, hr.headerName, y), hr.headerName, z), Continue)
  {
    hide ElementMeaning, M.GetHeader, RtSetHeader;
    QuoteText(x);
    WritesMeans(t, hr, y, s);
    WritesMeans(t, hr, z, RtSetHeader(s, hr.headerName, y));
    TwoElements(t, hr, s);
  }

  /** A rule without guard and element rules sets its header, if it has a value for it. */
  lemma {:induction false} SetsOrIdles(t: Tables, hr: HeaderRule, y: string, idx: nat, s: State)
    requires hr == Manipulates(hr.name, hr.headerName, NO_VALUE, if y == "" then NO_VALUE else Quote(y), [])
    ensures RuleMeaning(t, hr, idx, s) ==
      Outcome(if y == "" then s else RtSetHeader(s, hr.headerName, y), Continue)
  {
    hide M.GetHeader, RtSetHeader;
    QuoteText(y);
  }

  /** With one element rule, a rule without guard is that element rule. */
  lemma {:induction false} JustElement(t: Tables, hr: HeaderRule, idx: nat, s: State)
    requires PureManipulate(hr) && hr.msgType.AnyMessage? && hr.methods == [] && |hr.elementRules| == 1
    ensures RuleMeaning(t, hr, idx, s) == ElementMeaning(t, hr, hr.elementRules[0], s)
  {
    hide ElementMeaning, RuleMeaning, Elements, ScanRule, ScanElements, GuardOf, ScanGuard;
    ManipulateMeaning(t, hr, idx, s);
    Unguards(t, hr, s);
    OneElement(t, hr, s);
  }

  // ---- telling two rulesets apart ------------------------------------------

  lemma {:induction false} PairRules(t: Tables, a: HeaderRule, b: HeaderRule, s: State)
    ensures Rules(t, [a] + [b], 2, s) == Then(t, RuleMeaning(t, a, 0, s), b, 1)
    ensures Rules(t, [a], 1, s) == RuleMeaning(t, a, 0, s)
    ensures ScanRules(t, [a] + [b], 2) == ScanRule(ScanRule(t, a, 0), b, 1)
    ensures ScanRules(t, [a], 1) == ScanRule(t, a, 0)
  {
    hide RuleMeaning, ScanRule;
    RulesSnoc(t, [a], b, s);
    RulesSnoc(t, [], a, s);
    assert [] + [a] == [a];
    assert Rules(t, [], 0, s) == Outcome(s, Continue) && ScanRules(t, [], 0) == t;
  }

  lemma {:induction false} Differ(a: HeaderRule, b: HeaderRule, t: Tables, s: State)
    requires Then(t, RuleMeaning(t, a, 0, s), b, 1) != RuleMeaning(t, FusedPair(a, b), 0, s)
    ensures !SameEffect([a] + [b], [FusedPair(a, b)])
  {
    hide RuleMeaning, ScanRule, Rules, ScanRules, Then;
    PairRules(t, a, b, s);
    PairRules(t, FusedPair(a, b), b, s);
  }

  lemma {:induction false} DifferInTables(a: HeaderRule, b: HeaderRule)
    requires ScanRule(ScanRule(NO_TABLES, a, 0), b, 1) != ScanRule(NO_TABLES, FusedPair(a, b), 0)
    ensures !SameEffect([a] + [b], [FusedPair(a, b)])
  {
    hide RuleMeaning, ScanRule, Rules, ScanRules;
    PairRules(NO_TABLES, a, b, Given([]));
    PairRules(NO_TABLES, FusedPair(a, b), b, Given([]));
  }

  // ---- the families --------------------------------------------------------

  lemma {:induction false} HeaderSet(s: State, h: string, value: string)
    requires M.Find(s.msg.headers, h) < |s.msg.headers| && s.ctx.used + |value| <= ARENA_CAPACITY
    ensures M.GetHeader(RtSetHeader(s, h, value).msg, h) == value
    ensures RtSetHeader(s, h, value).ctx.used == s.ctx.used + |value|
    ensures M.Find(RtSetHeader(s, h, value).msg.headers, h) < |s.msg.headers| == |RtSetHeader(s, h, value).msg.headers|
  {
    hide M.Find;
    var i := M.Find(s.msg.headers, h);
    M.SetGet(s.msg, s.ctx.used, h, value, h);
    FoundStays(s.msg.headers, i, value, h);
  }

  lemma {:induction false} FoundStays(headers: seq<M.Header>, i: nat, value: string, h: string)
    requires i == M.Find(headers, h) < |headers|
    ensures M.Find(headers[i := headers[i].(value := value)], h) < |headers|
  {
    var changed := headers[i := headers[i].(value := value)];
    assert M.Matches(changed[i], h);
  }

  /**
   The guard: a first rule that overwrites the tested header stops the second one, but
   not the second half of the fused rule.
   */
  lemma {:induction false} GuardNeeded(name: string, h: string, x: string, y: string, z: string)
    requires x != "" && y != "" && z != "" && y != x && y != z && |y| + |z| <= ARENA_CAPACITY
    ensures
      var a := Manipulates(name, h, Quote(x), NO_VALUE, [Writes(y)]);
      var b := Manipulates(name, h, Quote(x), NO_VALUE, [Writes(z)]);
      && CanFuse(a, b) && NoneLost(a, b) && StoresAlike(a, b) && a.headerName == b.headerName
      && !LeavesHeader(a.elementRules[0]) && LeavesCaptures(a.elementRules[0])
      && !SameEffect([a] + [b], [FusedPair(a, b)])
  {
    hide SameEffect, RuleMeaning, M.GetHeader, RtSetHeader;
    var a := Manipulates(name, h, Quote(x), NO_VALUE, [Writes(y)]);
    var b := Manipulates(name, h, Quote(x), NO_VALUE, [Writes(z)]);
    var s := Given([M.Header(h, x, false)]);
    var u := RtSetHeader(s, h, y);
    OneHeader(h, x);
    GuardedWrite(NO_TABLES, a, x, y, 0, s);
    HeaderSet(s, h, y);
    GuardedWrite(NO_TABLES, b, x, z, 1, u);
    GuardedWrites(NO_TABLES, FusedPair(a, b), x, y, z, 0, s);
    HeaderSet(u, h, z);
    Differ(a, b, NO_TABLES, s);
  }

  lemma {:induction false} OneHeader(h: string, x: string)
    ensures M.Find([M.Header(h, x, false)], h) == 0
    ensures M.GetHeader(Given([M.Header(h, x, false)]).msg, h) == x
  {
    assert M.Matches(M.Header(h, x, false), h);
  }

  // A regex engine that matches everything and captures the pattern.

  const ECHO: Engine := (e: RegexEntry, s: string) => Some([Some(e.pattern)])

  const CAPTURED := Value("$0", [Reference(ValueRef(Capture, "", 0))], false, false)

  function Pattern(p: string): RegexEntry {
    RegexEntry(p, 0)
  }

  /** The header `h: x`, with `last` captured. */
  function Echoing(h: string, x: string, p: string, q: string, last: string): State {
    State(M.Message("", M.NO_START, [M.Header(h, x, false)], "", None),
          Context(0, [], [Pattern(p), Pattern(q)], ECHO, [], true, [Some(last)], "", [], false, 0, ""))
  }

  function Numbered(p: string, q: string): Tables {
    Tables(map[], [Pattern(p), Pattern(q)])
  }

  function UnderPattern(name: string, h: string, p: string, rules: seq<ElementRule>): HeaderRule {
    Manipulates(name, h, Quote(p), NO_VALUE, rules).(comparison := PatternRule)
  }

  function Matches(q: string): ElementRule {
    ElementRule("m", "", HeaderValue, NoElementAction, AnyValue, PatternRule, Quote(q), NO_VALUE)
  }

  function WritesCapture(): ElementRule {
    ElementRule("w", "", HeaderValue, ReplaceElement, AnyValue, CaseSensitive, NO_VALUE, CAPTURED)
  }

  lemma {:induction false} EchoGuard(h: string, x: string, p: string, q: string, r: string, last: string, subject: string)
    requires p != q && p != "" && q != "" && (r == p || r == q)
    ensures Guard(Numbered(p, q), PatternRule, AnyValue, Quote(r), subject, Echoing(h, x, p, q, last).ctx) ==
            (Echoing(h, x, p, q, r).ctx, true)
  {
    QuoteText(r);
    Numbering.RegexIndexIs(Numbered(p, q).regexes, Pattern(r), if r == p then 0 else 1);
  }

  lemma {:induction false} MatchesMeans(hr: HeaderRule, h: string, x: string, p: string, q: string, last: string)
    requires p != q && p != "" && q != ""
    ensures ElementMeaning(Numbered(p, q), hr, Matches(q), Echoing(h, x, p, q, last)) ==
            Outcome(Echoing(h, x, p, q, q), Continue)
  {
    hide Guard, Uri.Component, M.GetHeader;
    var hv := M.GetHeader(Echoing(h, x, p, q, last).msg, hr.headerName);
    EchoGuard(h, x, p, q, q, last, Uri.Component(hv, URI_WHOLE));
  }

  lemma {:induction false} CaptureText(t: Tables, h: string, x: string, p: string, q: string, last: string)
    ensures ValueText(t, CAPTURED, Echoing(h, x, p, q, last).ctx) == last
    ensures Evaluated(t, CAPTURED, Echoing(h, x, p, q, last)) == Echoing(h, x, p, q, last)
  {
    var ctx := Echoing(h, x, p, q, last).ctx;
    assert CAPTURED.segments[0] in CAPTURED.segments && !CAPTURED.IsPureLiteral();
    assert CAPTURED.segments[..0] == [] && SegmentsText(t, [], ctx) == "" && "" + last == last;
    assert SegmentText(t, CAPTURED.segments[0], ctx) == last;
  }

  lemma {:induction false} WritesCaptureMeans(t: Tables, hr: HeaderRule, h: string, x: string, p: string, q: string, last: string)
    ensures ElementMeaning(t, hr, WritesCapture(), Echoing(h, x, p, q, last)) ==
            Outcome(RtSetHeader(Echoing(h, x, p, q, last), hr.headerName, last), Continue)
  {
    hide Uri.Component, M.GetHeader, RtSetHeader, ValueText, Evaluated;
    CaptureText(t, h, x, p, q, last);
  }

  lemma {:induction false} UnderPatternMeans(hr: HeaderRule, h: string, x: string, p: string, q: string, last: string, idx: nat)
    requires p != q && p != "" && q != "" && hr == UnderPattern(hr.name, h, p, hr.elementRules)
    ensures RuleMeaning(Numbered(p, q), hr, idx, Echoing(h, x, p, q, last)) ==
            Elements(Numbered(p, q), hr, |hr.elementRules|, Echoing(h, x, p, q, p))
  {
    hide RuleMeaning, ScanRule, Elements, ScanElements, ScanGuard, Guard, M.GetHeader;
    var s := Echoing(h, x, p, q, last);
    ManipulateMeaning(Numbered(p, q), hr, idx, s);
    EchoGuard(h, x, p, q, p, last, M.GetHeader(s.msg, hr.headerName));
  }

  /**
   The captures: a pattern matched by an element rule of the first rule replaces the captures
   of the guard, which the second rule would record again.
   */
  lemma {:induction false} CapturesNeeded(name: string, h: string, x: string, p: string, q: string)
    requires p != q && p != "" && q != "" && |p| <= ARENA_CAPACITY && |q| <= ARENA_CAPACITY
    ensures
      var a := UnderPattern(name, h, p, [Matches(q)]);
      var b := UnderPattern(name, h, p, [WritesCapture()]);
      && CanFuse(a, b) && NoneLost(a, b) && StoresAlike(a, b) && a.headerName == b.headerName
      && LeavesHeader(a.elementRules[0]) && !LeavesCaptures(a.elementRules[0])
      && !SameEffect([a] + [b], [FusedPair(a, b)])
  {
    hide SameEffect, RuleMeaning, M.GetHeader, RtSetHeader, ElementMeaning, Elements;
    var a := UnderPattern(name, h, p, [Matches(q)]);
    var b := UnderPattern(name, h, p, [WritesCapture()]);
    var t, s := Numbered(p, q), Echoing(h, x, p, q, "");
    QuoteText(q);
    UnderPatternMeans(a, h, x, p, q, "", 0);
    OneElement(t, a, Echoing(h, x, p, q, p));
    MatchesMeans(a, h, x, p, q, p);
    UnderPatternMeans(b, h, x, p, q, q, 1);
    OneElement(t, b, Echoing(h, x, p, q, p));
    WritesCaptureMeans(t, b, h, x, p, q, p);
    UnderPatternMeans(FusedPair(a, b), h, x, p, q, "", 0);
    MatchesMeans(FusedPair(a, b), h, x, p, q, p);
    TwoElements(t, FusedPair(a, b), Echoing(h, x, p, q, p));
    WritesCaptureMeans(t, FusedPair(a, b), h, x, p, q, q);
    EchoSets(h, x, p, q, p);
    EchoSets(h, x, p, q, q);
    Differ(a, b, t, s);
  }

  lemma {:induction false} EchoSets(h: string, x: string, p: string, q: string, last: string)
    requires |last| <= ARENA_CAPACITY
    ensures M.GetHeader(RtSetHeader(Echoing(h, x, p, q, last), h, last).msg, h) == last
  {
    OneHeader(h, x);
    HeaderSet(Echoing(h, x, p, q, last), h, last);
  }

  /** In a message without headers, a set adds the header as it is spelled. */
  lemma {:induction false} HeaderAdded(s: State, h: string, y: string)
    requires s.msg.headers == [] && s.ctx.used == 0 && y != "" && |h| + 2 * |y| <= ARENA_CAPACITY
    ensures RtSetHeader(s, h, y).msg.headers == [M.Header(h, y, false)]
  {
  }

  /** The spelling: an absent header is added as the rule that sets it spells it. */
  lemma {:induction false} SpellingNeeded(name: string, h: string, k: string, y: string)
    requires LowerAll(h) == LowerAll(k) && h != k && y != "" && |h| + 2 * |y| <= ARENA_CAPACITY
    ensures
      var a := Manipulates(name, h, NO_VALUE, NO_VALUE, []);
      var b := Manipulates(name, k, NO_VALUE, NO_VALUE, [Writes(y)]);
      && CanFuse(a, b) && Unguarded(a, b) && NoneLost(a, b) && StoresAlike(a, b)
      && !SameEffect([a] + [b], [FusedPair(a, b)])
  {
    hide SameEffect, RuleMeaning, RtSetHeader, LowerAll, ElementMeaning;
    var a := Manipulates(name, h, NO_VALUE, NO_VALUE, []);
    var b := Manipulates(name, k, NO_VALUE, NO_VALUE, [Writes(y)]);
    var s := Given([]);
    SameLength(h, k);
    SetsOrIdles(NO_TABLES, a, "", 0, s);
    JustElement(NO_TABLES, b, 1, s);
    JustElement(NO_TABLES, FusedPair(a, b), 0, s);
    WritesMeans(NO_TABLES, b, y, s);
    WritesMeans(NO_TABLES, FusedPair(a, b), y, s);
    HeaderAdded(s, h, y);
    HeaderAdded(s, k, y);
    assert M.Header(h, y, false) != M.Header(k, y, false);
    Differ(a, b, NO_TABLES, s);
  }

  lemma {:induction false} SameLength(h: string, k: string)
    requires LowerAll(h) == LowerAll(k)
    ensures |h| == |k|
  {
    assert |LowerAll(h)| == |LowerAll(k)|;
  }

  /** The names: an unnamed element store goes by the name of the rule it ends up in. */
  lemma {:induction false} StoreNamesNeeded(h: string, n: string, m: string)
    requires n != m
    ensures
      var a := Manipulates(n, h, NO_VALUE, NO_VALUE, []);
      var b := Manipulates(m, h, NO_VALUE, NO_VALUE, [Stores("")]);
      && CanFuse(a, b) && Unguarded(a, b) && NoneLost(a, b) && a.headerName == b.headerName
      && !SameEffect([a] + [b], [FusedPair(a, b)])
  {
    hide SameEffect;
    var a := Manipulates(n, h, NO_VALUE, NO_VALUE, []);
    var b := Manipulates(m, h, NO_VALUE, NO_VALUE, [Stores("")]);
    OneScan(b, 1);
    OneScan(FusedPair(a, b), 0);
    assert ScanRule(NO_TABLES, a, 0) == NO_TABLES;
    if m + ".el" == n + ".el" {
      Suffixed(m, n);
      assert false;
    }
    assert (m + ".el") !in ScanRule(NO_TABLES, FusedPair(a, b), 0).slots;
    DifferInTables(a, b);
  }

  lemma {:induction false} Suffixed(m: string, n: string)
    requires m + ".el" == n + ".el"
    ensures m == n
  {
    assert (m + ".el")[..|m + ".el"| - 3] == m && (n + ".el")[..|n + ".el"| - 3] == n;
  }

  lemma {:induction false} OneScan(hr: HeaderRule, idx: nat)
    requires hr == Manipulates(hr.name, hr.headerName, NO_VALUE, NO_VALUE, [Stores("")])
    ensures ScanRule(NO_TABLES, hr, idx).slots == map[hr.name + ".el" := 0]
  {
    assert ScanElements(NO_TABLES, hr, 0) == NO_TABLES;
  }

  /** The replacement of the first rule: element rules that join it switch it off. */
  lemma {:induction false} FirstSetNeeded(name: string, h: string, y: string, slot: string)
    requires y != "" && slot != "" && |h| + 2 * |y| <= ARENA_CAPACITY
    ensures
      var a := Manipulates(name, h, NO_VALUE, Quote(y), []);
      var b := Manipulates(name, h, NO_VALUE, NO_VALUE, [Stores(slot)]);
      && CanFuse(a, b) && Unguarded(a, b) && StoresAlike(a, b) && a.headerName == b.headerName && !SetsHeader(b)
      && !SameEffect([a] + [b], [FusedPair(a, b)])
  {
    hide SameEffect, RuleMeaning, RtSetHeader, ElementMeaning;
    var a := Manipulates(name, h, NO_VALUE, Quote(y), []);
    var b := Manipulates(name, h, NO_VALUE, NO_VALUE, [Stores(slot)]);
    var s := Given([]);
    var u := RtSetHeader(s, h, y);
    SetsOrIdles(NO_TABLES, a, y, 0, s);
    JustElement(NO_TABLES, b, 1, u);
    JustElement(NO_TABLES, FusedPair(a, b), 0, s);
    StoresMeans(NO_TABLES, b, slot, u);
    StoresMeans(NO_TABLES, FusedPair(a, b), slot, s);
    HeaderAdded(s, h, y);
    Differ(a, b, NO_TABLES, s);
  }

  /** The replacement of the second rule: fusing keeps element rules only. */
  lemma {:induction false} SecondSetNeeded(name: string, h: string, y: string, slot: string)
    requires y != "" && slot != "" && |h| + 2 * |y| <= ARENA_CAPACITY
    ensures
      var a := Manipulates(name, h, NO_VALUE, NO_VALUE, [Stores(slot)]);
      var b := Manipulates(name, h, NO_VALUE, Quote(y), []);
      && CanFuse(a, b) && Unguarded(a, b) && StoresAlike(a, b) && a.headerName == b.headerName && !SetsHeader(a)
      && !SameEffect([a] + [b], [FusedPair(a, b)])
  {
    hide SameEffect, RuleMeaning, RtSetHeader, ElementMeaning;
    var a := Manipulates(name, h, NO_VALUE, NO_VALUE, [Stores(slot)]);
    var b := Manipulates(name, h, NO_VALUE, Quote(y), []);
    assert FusedPair(a, b) == a;
    var s := Given([]);
    JustElement(NO_TABLES, a, 0, s);
    StoresMeans(NO_TABLES, a, slot, s);
    var u := RuleMeaning(NO_TABLES, a, 0, s).state;
    SetsOrIdles(NO_TABLES, b, y, 1, u);
    HeaderAdded(u, h, y);
    Differ(a, b, NO_TABLES, s);
  }

  /** A header-level store, not named: its slot is numbered by the place of its rule. */
  function Keeps(h: string): HeaderRule {
    HeaderRule("", h, StoreHeader, CaseSensitive, AnyMessage, [], NO_VALUE, NO_VALUE, [])
  }

  lemma {:induction false} KeepsScan(h: string, idx: nat)
    ensures ScanRule(NO_TABLES, Keeps(h), idx).slots == map["rule" + Decimal(idx) := 0]
  {
    assert ScanElements(NO_TABLES, Keeps(h), 0) == NO_TABLES;
    assert StoreName(Keeps(h), idx) == "rule" + Decimal(idx);
  }

  /** The names of header-level stores: behind a fused pair, an unnamed one changes its slot. */
  lemma {:induction false} NamedBehindNeeded(name: string, h: string, k: string)
    ensures
      var a := Manipulates(name, h, NO_VALUE, NO_VALUE, []);
      && FuseSafe(a, a) && Fused([a] + [a] + [Keeps(k)]) == [a] + [Keeps(k)]
      && !SameEffect([a] + [a] + [Keeps(k)], [a] + [Keeps(k)])
  {
    var a, c := Manipulates(name, h, NO_VALUE, NO_VALUE, []), Keeps(k);
    var s := Given([]);
    FusedTriple(a, c);
    hide SameEffect, RuleMeaning, ScanRule, Rules, ScanRules, Fused, FuseSafe;
    IdleRule(NO_TABLES, a, 0, s);
    IdleRule(NO_TABLES, a, 1, s);
    PairRules(NO_TABLES, a, a, s);
    PairRules(NO_TABLES, a, c, s);
    RulesSnoc(NO_TABLES, [a] + [a], c, s);
    KeepsMoves(k);
    Unlike([a] + [a] + [c], [a] + [c]);
  }

  lemma {:induction false} KeepsMoves(h: string)
    ensures ScanRule(NO_TABLES, Keeps(h), 2) != ScanRule(NO_TABLES, Keeps(h), 1)
  {
    hide ScanRule;
    KeepsScan(h, 1);
    KeepsScan(h, 2);
    assert "rule" + Decimal(1) == "rule1" && "rule" + Decimal(2) == "rule2";
    assert "rule1" !in ScanRule(NO_TABLES, Keeps(h), 2).slots;
  }

  lemma {:induction false} FusedTriple(a: HeaderRule, c: HeaderRule)
    requires CanFuse(a, a) && a.elementRules == [] && !CanFuse(a, c)
    ensures Fused([a] + [a] + [c]) == [a] + [c]
  {
    hide CanFuse;
    assert [a][..0] == [] && ([a] + [a])[..1] == [a] && ([a] + [a] + [c])[..2] == [a] + [a];
    assert Fused([]) == [] && Fused([a]) == [a];
    assert FusedPair(a, a) == a;
    assert Fused([a] + [a]) == [a];
  }

  lemma {:induction false} Unlike(a: seq<HeaderRule>, b: seq<HeaderRule>)
    requires ScanRules(NO_TABLES, a, |a|) != ScanRules(NO_TABLES, b, |b|)
    ensures !SameEffect(a, b)
  {
  }
}
