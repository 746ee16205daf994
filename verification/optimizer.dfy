/**
 The optimizer: four rewriting passes over a ruleset, run to a fixpoint or a round limit.
 Each pass is proved against a function of the rules, and every change it reports is paid
 for by a measure that only falls.
 */
module Optimizer {
  import opened Text
  import opened Ast
  import ValueParser

  // ---- dropping repeats ----------------------------------------------------

  /** The keys of a list; an element without a key is never a repeat. */
  function Keys<T>(xs: seq<T>, key: T -> Option<string>): set<string> {
    if xs == [] then {}
    else Keys(xs[..|xs| - 1], key) + if key(xs[|xs| - 1]).Some? then {key(xs[|xs| - 1]).value} else {}
  }

  predicate Repeats<T>(xs: seq<T>, x: T, key: T -> Option<string>) {
    key(x).Some? && key(x).value in Keys(xs, key)
  }

  /** The list without its later repeats. */
  function Unique<T>(xs: seq<T>, key: T -> Option<string>): (r: seq<T>)
    ensures |r| <= |xs|
  {
    if xs == [] then []
    else if Repeats(xs[..|xs| - 1], xs[|xs| - 1], key) then Unique(xs[..|xs| - 1], key)
    else Unique(xs[..|xs| - 1], key) + [xs[|xs| - 1]]
  }

  method DropRepeats<T>(xs: seq<T>, key: T -> Option<string>) returns (kept: seq<T>, removed: nat)
    ensures kept == Unique(xs, key) && removed == |xs| - |kept|
  {
    kept, removed := [], 0;
    var seen: set<string> := {};
    for i := 0 to |xs|
      invariant kept == Unique(xs[..i], key) && seen == Keys(xs[..i], key) && removed == i - |kept|
    {
      assert xs[..i + 1][..i] == xs[..i];
      var k := key(xs[i]);
      if k.Some? {
        if k.value in seen {
          removed := removed + 1;
        } else {
          seen := seen + {k.value};
          kept := kept + [xs[i]];
        }
      } else {
        kept := kept + [xs[i]];
      }
    }
    assert xs[..|xs|] == xs;
  }

  // ---- signatures ----------------------------------------------------------

  /** How enumerators are spelled in a signature; no pass depends on the spelling. */
  datatype Spelling = Spelling(
    elementType: ElementType -> string, elementAction: ElementAction -> string, comparison: ComparisonType -> string,
    headerAction: HeaderAction -> string, msgType: MsgType -> string)

  function ElementSig(sp: Spelling, er: ElementRule): string {
    sp.elementType(er.kind) + "|" + sp.elementAction(er.action) + "|" + sp.comparison(er.comparison) + "|" +
    er.matchValue.raw + "|" + er.newValue.raw + "|" + er.parameterName
  }

  function MethodsSig(methods: seq<string>): string {
    if methods == [] then "" else methods[0] + "," + MethodsSig(methods[1..])
  }

  function ElementsSig(sp: Spelling, rules: seq<ElementRule>): string {
    if rules == [] then "" else ElementSig(sp, rules[0]) + ";" + ElementsSig(sp, rules[1..])
  }

  function HeaderSig(sp: Spelling, hr: HeaderRule): string {
    LowerAll(hr.headerName) + "#" + sp.headerAction(hr.action) + "|" + sp.comparison(hr.comparison) + "|" +
    sp.msgType(hr.msgType) + "|" + MethodsSig(hr.methods) + "|" + hr.matchValue.raw + "|" + hr.newValue.raw + "|" +
    ElementsSig(sp, hr.elementRules)
  }

  /** Adding twice adds two headers, so `add` rules are never repeats. */
  function HeaderKey(sp: Spelling): HeaderRule -> Option<string> {
    (hr: HeaderRule) => if hr.action.AddHeader? then None else Some(HeaderSig(sp, hr))
  }

  function ElementKey(sp: Spelling): ElementRule -> Option<string> {
    (er: ElementRule) => if er.action.AddElement? then None else Some(ElementSig(sp, er))
  }

  // ---- dead rules ----------------------------------------------------------

  predicate NeedsHeader(a: HeaderAction) {
    match a
    case AddHeader | StoreHeader | Manipulate | ReplaceHeader | FindReplaceAllHeader => true
    case Delete | DeleteElementOfHeader | DeleteHeader => true
    case _ => false
  }

  predicate Dead(hr: HeaderRule) {
    hr.action.NoHeaderAction? || (NeedsHeader(hr.action) && hr.headerName == "")
  }

  predicate Idle(er: ElementRule) {
    er.action.NoElementAction? && er.kind.NoElementType?
  }

  function Active(rules: seq<ElementRule>): (r: seq<ElementRule>)
    ensures |r| <= |rules|
  {
    if rules == [] then []
    else if Idle(rules[|rules| - 1]) then Active(rules[..|rules| - 1])
    else Active(rules[..|rules| - 1]) + [rules[|rules| - 1]]
  }

  function Cleaned(hr: HeaderRule): HeaderRule {
    hr.(elementRules := Active(hr.elementRules))
  }

  function Live(rules: seq<HeaderRule>): seq<HeaderRule> {
    if rules == [] then []
    else if Dead(rules[|rules| - 1]) then Live(rules[..|rules| - 1])
    else Live(rules[..|rules| - 1]) + [Cleaned(rules[|rules| - 1])]
  }

  /** A dead rule counts once, whatever it held; a live one by the idle element rules it loses. */
  function DeadCount(rules: seq<HeaderRule>): nat {
    if rules == [] then 0
    else DeadCount(rules[..|rules| - 1]) + DeadIn(rules[|rules| - 1])
  }

  function DeadIn(hr: HeaderRule): nat {
    if Dead(hr) then 1 else |hr.elementRules| - |Active(hr.elementRules)|
  }

  // ---- pattern simplification ----------------------------------------------

  const REGEX_META := ".[]()*+?{}|\\^$"

  /** The text left when one pair of anchors is stripped, if nothing in it is special. */
  function PlainPattern(body: string): Option<string> {
    var front := if body != "" && body[0] == '^' then body[1..] else body;
    var whole := if front != "" && front[|front| - 1] == '$' then front[..|front| - 1] else front;
    if NothingSpecial(whole) then Some(whole) else None
  }

  predicate NothingSpecial(s: string) {
    forall k :: 0 <= k < |s| ==> s[k] !in REGEX_META
  }

  predicate Simplifiable(cmp: ComparisonType, mv: Value) {
    && cmp.PatternRule? && mv.IsRegexLiteral() && !mv.Empty()
    && PlainPattern(mv.raw).Some? && PlainPattern(mv.raw).value != ""
  }

  function SimplerComparison(cmp: ComparisonType, mv: Value): ComparisonType {
    if Simplifiable(cmp, mv) then CaseSensitive else cmp
  }

  function SimplerValue(cmp: ComparisonType, mv: Value): Value {
    if Simplifiable(cmp, mv) then ValueParser.ParsedValue(PlainPattern(mv.raw).value, ValueParser.LiteralMode, false) else mv
  }

  function SimplerElement(er: ElementRule): ElementRule {
    er.(comparison := SimplerComparison(er.comparison, er.matchValue),
        matchValue := SimplerValue(er.comparison, er.matchValue))
  }

  function SimplerElements(rules: seq<ElementRule>): seq<ElementRule> {
    if rules == [] then [] else SimplerElements(rules[..|rules| - 1]) + [SimplerElement(rules[|rules| - 1])]
  }

  function SimplerRule(hr: HeaderRule): HeaderRule {
    hr.(comparison := SimplerComparison(hr.comparison, hr.matchValue),
        matchValue := SimplerValue(hr.comparison, hr.matchValue),
        elementRules := SimplerElements(hr.elementRules))
  }

  function Simpler(rules: seq<HeaderRule>): seq<HeaderRule> {
    if rules == [] then [] else Simpler(rules[..|rules| - 1]) + [SimplerRule(rules[|rules| - 1])]
  }

  // ---- merging -------------------------------------------------------------

  function Merged(sp: Spelling, hr: HeaderRule): HeaderRule {
    hr.(elementRules := Unique(hr.elementRules, ElementKey(sp)))
  }

  function MergedAll(sp: Spelling, rules: seq<HeaderRule>): seq<HeaderRule> {
    if rules == [] then [] else MergedAll(sp, rules[..|rules| - 1]) + [Merged(sp, rules[|rules| - 1])]
  }

  predicate CanFuse(a: HeaderRule, b: HeaderRule) {
    && b.action.Manipulate? && a.action.Manipulate?
    && LowerAll(a.headerName) == LowerAll(b.headerName)
    && a.comparison == b.comparison && a.msgType == b.msgType && a.methods == b.methods
    && a.matchValue.raw == b.matchValue.raw
  }

  function FusedPair(a: HeaderRule, b: HeaderRule): HeaderRule {
    a.(elementRules := a.elementRules + b.elementRules)
  }

  /** Adds a rule to an already fused list. */
  function FuseOnto(fused: seq<HeaderRule>, hr: HeaderRule): seq<HeaderRule> {
    if fused != [] && CanFuse(fused[|fused| - 1], hr)
    then fused[..|fused| - 1] + [FusedPair(fused[|fused| - 1], hr)]
    else fused + [hr]
  }

  function Fused(rules: seq<HeaderRule>): seq<HeaderRule> {
    if rules == [] then [] else FuseOnto(Fused(rules[..|rules| - 1]), rules[|rules| - 1])
  }

  // ---- the measure ---------------------------------------------------------

  function PatternWeight(cmp: ComparisonType): nat {
    if cmp.PatternRule? then 1 else 0
  }

  function ElementWeight(er: ElementRule): nat {
    1 + PatternWeight(er.comparison)
  }

  function ElementsWeight(rules: seq<ElementRule>): nat {
    if rules == [] then 0 else ElementsWeight(rules[..|rules| - 1]) + ElementWeight(rules[|rules| - 1])
  }

  function RuleWeight(hr: HeaderRule): nat {
    1 + PatternWeight(hr.comparison) + ElementsWeight(hr.elementRules)
  }

  /** Header rules, element rules and pattern comparisons, together. */
  function Measure(rules: seq<HeaderRule>): nat {
    if rules == [] then 0 else Measure(rules[..|rules| - 1]) + RuleWeight(rules[|rules| - 1])
  }

  // ---- counts --------------------------------------------------------------

  function SimplerIn(cmp: ComparisonType, mv: Value): nat {
    if Simplifiable(cmp, mv) then 1 else 0
  }

  function SimplerElementCount(rules: seq<ElementRule>): nat {
    if rules == [] then 0
    else SimplerElementCount(rules[..|rules| - 1]) +
         SimplerIn(rules[|rules| - 1].comparison, rules[|rules| - 1].matchValue)
  }

  function SimplerCount(rules: seq<HeaderRule>): nat {
    if rules == [] then 0
    else SimplerCount(rules[..|rules| - 1]) +
         SimplerIn(rules[|rules| - 1].comparison, rules[|rules| - 1].matchValue) +
         SimplerElementCount(rules[|rules| - 1].elementRules)
  }

  function MergeCount(sp: Spelling, rules: seq<HeaderRule>): nat {
    if rules == [] then 0
    else MergeCount(sp, rules[..|rules| - 1]) +
         (|rules[|rules| - 1].elementRules| - |Unique(rules[|rules| - 1].elementRules, ElementKey(sp))|)
  }

  // ---- every change is paid for --------------------------------------------

  lemma {:induction false} RuleWeighs(hr: HeaderRule)
    ensures RuleWeight(hr) >= 1
  {
  }

  lemma {:induction false} UniqueRulesPay(rules: seq<HeaderRule>, key: HeaderRule -> Option<string>)
    ensures Measure(Unique(rules, key)) + (|rules| - |Unique(rules, key)|) <= Measure(rules)
    ensures |Unique(rules, key)| == |rules| ==> Unique(rules, key) == rules
  {
    hide RuleWeight, Repeats, Keys;
    if rules != [] {
      var front, last := rules[..|rules| - 1], rules[|rules| - 1];
      RuleWeighs(last);
      UniqueRulesPay(front, key);
      if !Repeats(front, last, key) {
        MeasureSnoc(Unique(front, key), last);
        assert front + [last] == rules;
      }
    }
  }

  lemma {:induction false} ElementsSnoc(rules: seq<ElementRule>, er: ElementRule)
    ensures ElementsWeight(rules + [er]) == ElementsWeight(rules) + ElementWeight(er)
  {
    assert (rules + [er])[..|rules|] == rules;
  }

  lemma {:induction false} ElementWeighs(er: ElementRule)
    ensures ElementWeight(er) >= 1
  {
  }

  lemma {:induction false} UniqueElementsPay(rules: seq<ElementRule>, key: ElementRule -> Option<string>)
    ensures ElementsWeight(Unique(rules, key)) + (|rules| - |Unique(rules, key)|) <= ElementsWeight(rules)
    ensures |Unique(rules, key)| == |rules| ==> Unique(rules, key) == rules
  {
    hide ElementWeight, Repeats, Keys;
    if rules != [] {
      var front, last := rules[..|rules| - 1], rules[|rules| - 1];
      ElementWeighs(last);
      UniqueElementsPay(front, key);
      if !Repeats(front, last, key) {
        ElementsSnoc(Unique(front, key), last);
        assert front + [last] == rules;
      }
    }
  }

  lemma {:induction false} ActivePays(rules: seq<ElementRule>)
    ensures ElementsWeight(Active(rules)) + (|rules| - |Active(rules)|) <= ElementsWeight(rules)
    ensures |Active(rules)| == |rules| ==> Active(rules) == rules
  {
    hide ElementWeight, Idle;
    if rules != [] {
      var front, last := rules[..|rules| - 1], rules[|rules| - 1];
      ElementWeighs(last);
      ActivePays(front);
      if !Idle(last) {
        ElementsSnoc(Active(front), last);
        assert front + [last] == rules;
      }
    }
  }

  lemma {:induction false} MeasureSnoc(rules: seq<HeaderRule>, hr: HeaderRule)
    ensures Measure(rules + [hr]) == Measure(rules) + RuleWeight(hr)
  {
    assert (rules + [hr])[..|rules|] == rules;
  }

  lemma {:induction false} CleanedPays(hr: HeaderRule)
    ensures |Active(hr.elementRules)| <= |hr.elementRules|
    ensures RuleWeight(Cleaned(hr)) + (|hr.elementRules| - |Active(hr.elementRules)|) <= RuleWeight(hr)
    ensures |Active(hr.elementRules)| == |hr.elementRules| ==> Cleaned(hr) == hr
    ensures RuleWeight(hr) >= 1
  {
    ActivePays(hr.elementRules);
  }

  lemma {:induction false} LiveStep(front: seq<HeaderRule>, hr: HeaderRule)
    ensures Live(front + [hr]) == if Dead(hr) then Live(front) else Live(front) + [Cleaned(hr)]
    ensures DeadCount(front + [hr]) == DeadCount(front) + DeadIn(hr)
  {
    hide Dead, DeadIn, Cleaned;
    assert (front + [hr])[..|front|] == front;
  }

  lemma {:induction false} LivePays(rules: seq<HeaderRule>)
    ensures Measure(Live(rules)) + DeadCount(rules) <= Measure(rules)
    ensures DeadCount(rules) == 0 ==> Live(rules) == rules
  {
    if rules != [] {
      hide Dead, RuleWeight, Cleaned, Active, Live, DeadCount, Measure;
      var front, last := rules[..|rules| - 1], rules[|rules| - 1];
      assert front + [last] == rules;
      LivePays(front);
      LiveStep(front, last);
      CleanedPays(last);
      MeasureSnoc(front, last);
      MeasureSnoc(Live(front), Cleaned(last));
    }
  }

  lemma {:induction false} SimplerElementsPay(rules: seq<ElementRule>)
    ensures ElementsWeight(SimplerElements(rules)) + SimplerElementCount(rules) == ElementsWeight(rules)
    ensures SimplerElementCount(rules) == 0 ==> SimplerElements(rules) == rules
  {
    if rules != [] {
      hide SimplerElement, ElementWeight, SimplerIn, SimplerElements, SimplerElementCount, ElementsWeight;
      var front, last := rules[..|rules| - 1], rules[|rules| - 1];
      assert front + [last] == rules;
      SimplerElementsPay(front);
      SimplerElementsStep(front, last);
      SimplerElementPays(last);
      ElementsSnoc(front, last);
      ElementsSnoc(SimplerElements(front), SimplerElement(last));
    }
  }

  lemma {:induction false} SimplerElementsStep(front: seq<ElementRule>, er: ElementRule)
    ensures SimplerElements(front + [er]) == SimplerElements(front) + [SimplerElement(er)]
    ensures SimplerElementCount(front + [er]) == SimplerElementCount(front) + SimplerIn(er.comparison, er.matchValue)
  {
    hide SimplerElement, SimplerIn;
    assert (front + [er])[..|front|] == front;
  }

  lemma {:induction false} SimplerElementPays(er: ElementRule)
    ensures
      var n := SimplerIn(er.comparison, er.matchValue);
      ElementWeight(SimplerElement(er)) + n == ElementWeight(er) && (n == 0 ==> SimplerElement(er) == er)
  {
    hide SimplerValue, SimplerComparison, SimplerIn;
    SameValue(er.comparison, er.matchValue);
    SimplerWeight(er.comparison, er.matchValue);
  }

  lemma {:induction false} SameValue(cmp: ComparisonType, mv: Value)
    ensures SimplerIn(cmp, mv) == 0 ==> SimplerValue(cmp, mv) == mv && SimplerComparison(cmp, mv) == cmp
  {
  }

  lemma {:induction false} SimplerWeight(cmp: ComparisonType, mv: Value)
    ensures PatternWeight(SimplerComparison(cmp, mv)) + SimplerIn(cmp, mv) == PatternWeight(cmp)
  {
  }

  lemma {:induction false} SimplerRulePays(hr: HeaderRule)
    ensures
      var n := SimplerIn(hr.comparison, hr.matchValue) + SimplerElementCount(hr.elementRules);
      RuleWeight(SimplerRule(hr)) + n == RuleWeight(hr) && (n == 0 ==> SimplerRule(hr) == hr)
  {
    hide SimplerValue, SimplerComparison, SimplerIn;
    SimplerElementsPay(hr.elementRules);
    SameValue(hr.comparison, hr.matchValue);
    SimplerWeight(hr.comparison, hr.matchValue);
  }

  lemma {:induction false} SimplerPays(rules: seq<HeaderRule>)
    ensures Measure(Simpler(rules)) + SimplerCount(rules) == Measure(rules)
    ensures SimplerCount(rules) == 0 ==> Simpler(rules) == rules
  {
    hide SimplerRule, RuleWeight, SimplerIn, SimplerElementCount;
    if rules != [] {
      var front, last := rules[..|rules| - 1], rules[|rules| - 1];
      SimplerPays(front);
      SimplerRulePays(last);
      MeasureSnoc(Simpler(front), SimplerRule(last));
      assert front + [last] == rules;
    }
  }

  lemma {:induction false} MergedPays(sp: Spelling, rules: seq<HeaderRule>)
    ensures Measure(MergedAll(sp, rules)) + MergeCount(sp, rules) <= Measure(rules)
    ensures |MergedAll(sp, rules)| == |rules|
    ensures MergeCount(sp, rules) == 0 ==> MergedAll(sp, rules) == rules
  {
    if rules != [] {
      hide Unique, ElementKey, RuleWeight, Merged, MergedAll, MergeCount, Measure;
      var front, last := rules[..|rules| - 1], rules[|rules| - 1];
      assert front + [last] == rules;
      MergedPays(sp, front);
      MergedStep(sp, front, last);
      MergedRulePays(sp, last);
      MeasureSnoc(front, last);
      MeasureSnoc(MergedAll(sp, front), Merged(sp, last));
    }
  }

  lemma {:induction false} MergedStep(sp: Spelling, front: seq<HeaderRule>, hr: HeaderRule)
    ensures MergedAll(sp, front + [hr]) == MergedAll(sp, front) + [Merged(sp, hr)]
    ensures MergeCount(sp, front + [hr]) ==
            MergeCount(sp, front) + (|hr.elementRules| - |Unique(hr.elementRules, ElementKey(sp))|)
  {
    hide Unique, ElementKey, Merged;
    assert (front + [hr])[..|front|] == front;
  }

  lemma {:induction false} MergedRulePays(sp: Spelling, hr: HeaderRule)
    ensures
      var n := |hr.elementRules| - |Unique(hr.elementRules, ElementKey(sp))|;
      RuleWeight(Merged(sp, hr)) + n <= RuleWeight(hr) && (n == 0 ==> Merged(sp, hr) == hr)
  {
    hide Unique, ElementKey;
    UniqueElementsPay(hr.elementRules, ElementKey(sp));
  }

  lemma {:induction false} ElementsWeightAppend(a: seq<ElementRule>, b: seq<ElementRule>)
    ensures ElementsWeight(a + b) == ElementsWeight(a) + ElementsWeight(b)
  {
    if b == [] {
      assert a + b == a;
    } else {
      assert (a + b)[..|a + b| - 1] == a + b[..|b| - 1];
      ElementsWeightAppend(a, b[..|b| - 1]);
    }
  }

  lemma {:induction false} FuseOntoPays(fused: seq<HeaderRule>, hr: HeaderRule)
    ensures
      var r := FuseOnto(fused, hr);
      && |r| <= |fused| + 1 && Measure(r) + (|fused| + 1 - |r|) <= Measure(fused) + RuleWeight(hr)
      && (|r| == |fused| + 1 ==> r == fused + [hr])
  {
    hide CanFuse;
    MeasureSnoc(fused, hr);
    if fused != [] && CanFuse(fused[|fused| - 1], hr) {
      var front, last := fused[..|fused| - 1], fused[|fused| - 1];
      ElementsWeightAppend(last.elementRules, hr.elementRules);
      MeasureSnoc(front, FusedPair(last, hr));
    }
  }

  lemma {:induction false} FusedPays(rules: seq<HeaderRule>)
    ensures |Fused(rules)| <= |rules|
    ensures Measure(Fused(rules)) + (|rules| - |Fused(rules)|) <= Measure(rules)
    ensures |Fused(rules)| == |rules| ==> Fused(rules) == rules
  {
    hide FuseOnto, RuleWeight;
    if rules != [] {
      var front, last := rules[..|rules| - 1], rules[|rules| - 1];
      FusedPays(front);
      FuseOntoPays(Fused(front), last);
      assert front + [last] == rules;
    }
  }

  // ---- the passes ----------------------------------------------------------

  /** The ruleset the passes rewrite in place. */
  class RuleList {
    var rules: seq<HeaderRule>

    constructor (rules: seq<HeaderRule>)
      ensures this.rules == rules
    {
      this.rules := rules;
    }
  }

  method Deduplicate(sp: Spelling, rs: RuleList) returns (changes: nat)
    modifies rs
    ensures rs.rules == Unique(old(rs.rules), HeaderKey(sp)) && changes == |old(rs.rules)| - |rs.rules|
  {
    var kept;
    kept, changes := DropRepeats(rs.rules, HeaderKey(sp));
    rs.rules := kept;
  }

  method DropIdle(rules: seq<ElementRule>) returns (kept: seq<ElementRule>)
    ensures kept == Active(rules)
  {
    kept := [];
    for i := 0 to |rules|
      invariant kept == Active(rules[..i])
    {
      assert rules[..i + 1][..i] == rules[..i];
      if !Idle(rules[i]) {
        kept := kept + [rules[i]];
      }
    }
    assert rules[..|rules|] == rules;
  }

  method EliminateDead(rs: RuleList) returns (changes: nat)
    modifies rs
    ensures rs.rules == Live(old(rs.rules)) && changes == DeadCount(old(rs.rules))
  {
    hide Dead;
    changes := 0;
    var kept := [];
    for i := 0 to |rs.rules|
      invariant rs.rules == old(rs.rules)
      invariant kept == Live(rs.rules[..i]) && changes == DeadCount(rs.rules[..i])
    {
      assert rs.rules[..i + 1][..i] == rs.rules[..i];
      var hr := rs.rules[i];
      if Dead(hr) {
        changes := changes + 1;
      } else {
        var active := DropIdle(hr.elementRules);
        changes := changes + (|hr.elementRules| - |active|);
        kept := kept + [hr.(elementRules := active)];
      }
    }
    assert rs.rules[..|rs.rules|] == rs.rules;
    rs.rules := kept;
  }

  method Simplify(cmp: ComparisonType, mv: Value) returns (c: ComparisonType, v: Value, changed: nat)
    ensures c == SimplerComparison(cmp, mv) && v == SimplerValue(cmp, mv) && changed == SimplerIn(cmp, mv)
  {
    c, v, changed := cmp, mv, 0;
    if !cmp.PatternRule? { return; }
    if !mv.IsRegexLiteral() || mv.Empty() { return; }
    var plain := PlainPattern(mv.raw);
    if plain.Some? && plain.value != "" {
      v := ValueParser.Parse(plain.value, ValueParser.LiteralMode, false);
      c, changed := CaseSensitive, 1;
    }
  }

  method SimplifyElements(rules: seq<ElementRule>) returns (out: seq<ElementRule>, changed: nat)
    ensures out == SimplerElements(rules) && changed == SimplerElementCount(rules)
  {
    hide SimplerValue, SimplerComparison, SimplerIn;
    out, changed := [], 0;
    for i := 0 to |rules|
      invariant out == SimplerElements(rules[..i]) && changed == SimplerElementCount(rules[..i])
    {
      assert rules[..i + 1][..i] == rules[..i];
      var c, v, n := Simplify(rules[i].comparison, rules[i].matchValue);
      out := out + [rules[i].(comparison := c, matchValue := v)];
      changed := changed + n;
    }
    assert rules[..|rules|] == rules;
  }

  method SimplifyPatterns(rs: RuleList) returns (changes: nat)
    modifies rs
    ensures rs.rules == Simpler(old(rs.rules)) && changes == SimplerCount(old(rs.rules))
  {
    hide SimplerValue, SimplerComparison, SimplerIn;
    changes := 0;
    var out := [];
    for i := 0 to |rs.rules|
      invariant rs.rules == old(rs.rules)
      invariant out == Simpler(rs.rules[..i]) && changes == SimplerCount(rs.rules[..i])
    {
      assert rs.rules[..i + 1][..i] == rs.rules[..i];
      var hr := rs.rules[i];
      var c, v, n := Simplify(hr.comparison, hr.matchValue);
      var elements, m := SimplifyElements(hr.elementRules);
      out := out + [hr.(comparison := c, matchValue := v, elementRules := elements)];
      changes := changes + n + m;
    }
    assert rs.rules[..|rs.rules|] == rs.rules;
    rs.rules := out;
  }

  method MergeElements(sp: Spelling, rs: RuleList) returns (changes: nat)
    modifies rs
    ensures rs.rules == MergedAll(sp, old(rs.rules)) && changes == MergeCount(sp, old(rs.rules))
  {
    hide Unique, ElementKey;
    changes := 0;
    var out := [];
    for i := 0 to |rs.rules|
      invariant rs.rules == old(rs.rules)
      invariant out == MergedAll(sp, rs.rules[..i]) && changes == MergeCount(sp, rs.rules[..i])
    {
      assert rs.rules[..i + 1][..i] == rs.rules[..i];
      var kept, removed := DropRepeats(rs.rules[i].elementRules, ElementKey(sp));
      out := out + [rs.rules[i].(elementRules := kept)];
      changes := changes + removed;
    }
    assert rs.rules[..|rs.rules|] == rs.rules;
    rs.rules := out;
  }

  method FuseAdjacent(rs: RuleList) returns (changes: nat)
    modifies rs
    ensures rs.rules == Fused(old(rs.rules)) && changes == |old(rs.rules)| - |rs.rules|
  {
    changes := 0;
    var fused: seq<HeaderRule> := [];
    for i := 0 to |rs.rules|
      invariant rs.rules == old(rs.rules)
      invariant fused == Fused(rs.rules[..i]) && changes == i - |fused|
    {
      assert rs.rules[..i + 1][..i] == rs.rules[..i];
      var hr := rs.rules[i];
      if fused != [] && CanFuse(fused[|fused| - 1], hr) {
        var last := fused[|fused| - 1];
        fused := fused[|fused| - 1 := last.(elementRules := last.elementRules + hr.elementRules)];
        changes := changes + 1;
      } else {
        fused := fused + [hr];
      }
    }
    assert rs.rules[..|rs.rules|] == rs.rules;
    rs.rules := fused;
  }

  method MergeRules(sp: Spelling, rs: RuleList) returns (changes: nat)
    modifies rs
    ensures
      var merged := MergedAll(sp, old(rs.rules));
      rs.rules == Fused(merged) && changes == MergeCount(sp, old(rs.rules)) + (|merged| - |rs.rules|)
  {
    hide MergedAll, MergeCount, Fused;
    var a := MergeElements(sp, rs);
    var b := FuseAdjacent(rs);
    changes := a + b;
  }

  /** Rules that no pass changes. */
  ghost predicate Settled(sp: Spelling, rules: seq<HeaderRule>) {
    && Unique(rules, HeaderKey(sp)) == rules && Live(rules) == rules
    && Simpler(rules) == rules && Fused(MergedAll(sp, rules)) == rules
  }

  /** One round of the four passes. */
  method Round(sp: Spelling, rs: RuleList) returns (changes: nat)
    modifies rs
    ensures Measure(rs.rules) + changes <= Measure(old(rs.rules))
    ensures changes == 0 ==> rs.rules == old(rs.rules) && Settled(sp, rs.rules)
  {
    hide Unique, Live, Simpler, Fused, MergedAll, DeadCount, SimplerCount, MergeCount, Measure, HeaderKey;
    ghost var start := rs.rules;
    UniqueRulesPay(rs.rules, HeaderKey(sp));
    var dedup := Deduplicate(sp, rs);
    LivePays(rs.rules);
    var dce := EliminateDead(rs);
    SimplerPays(rs.rules);
    var pattern := SimplifyPatterns(rs);
    MergedPays(sp, rs.rules);
    FusedPays(MergedAll(sp, rs.rules));
    var merge := MergeRules(sp, rs);
    changes := dedup + dce + pattern + merge;
  }

  /**
   Runs rounds until one changes nothing, or the limit is reached. The changes reported
   never exceed the starting measure, a limit above it always suffices, and a run that
   stops on an idle round leaves rules no pass would change.
   */
  method Optimize(sp: Spelling, rs: RuleList, maxIterations: nat) returns (total: nat, iterations: nat, settled: bool)
    modifies rs
    ensures Measure(rs.rules) + total <= Measure(old(rs.rules))
    ensures iterations <= maxIterations
    ensures settled ==> Settled(sp, rs.rules)
    ensures !settled ==> iterations == maxIterations <= total
    ensures maxIterations > Measure(old(rs.rules)) ==> settled
    ensures total == 0 ==> rs.rules == old(rs.rules)
  {
    hide Measure, Settled;
    total, iterations, settled := 0, 0, false;
    while iterations < maxIterations
      invariant iterations <= maxIterations && iterations <= total && !settled
      invariant Measure(rs.rules) + total <= Measure(old(rs.rules))
      invariant total == 0 ==> rs.rules == old(rs.rules)
    {
      var changes := Round(sp, rs);
      total := total + changes;
      iterations := iterations + 1;
      if changes == 0 {
        settled := true;
        return;
      }
    }
  }

  // ---- the decision plan ---------------------------------------------------

  /** The rules on one header, by position. */
  datatype Group = Group(header: string, members: seq<nat>)

  predicate GroupOk(rules: seq<HeaderRule>, n: nat, g: Group) {
    && n <= |rules| && g.members != []
    && (forall k :: 0 <= k < |g.members| ==> g.members[k] < n && LowerAll(rules[g.members[k]].headerName) == g.header)
    && (forall j, k :: 0 <= j < k < |g.members| ==> g.members[j] < g.members[k])
  }

  ghost predicate Placed(groups: seq<Group>, i: nat) {
    exists g, k :: 0 <= g < |groups| && 0 <= k < |groups[g].members| && groups[g].members[k] == i
  }

  /** One group per distinct header, holding exactly the positions of its rules in order. */
  ghost predicate Grouped(rules: seq<HeaderRule>, n: nat, groups: seq<Group>) {
    && (forall g :: 0 <= g < |groups| ==> GroupOk(rules, n, groups[g]))
    && (forall g, h :: 0 <= g < h < |groups| ==> groups[g].header != groups[h].header)
    && (forall i: nat :: i < n ==> Placed(groups, i))
  }

  function AddMember(rules: seq<HeaderRule>, n: nat, groups: seq<Group>, g: nat): seq<Group>
    requires n < |rules| && g <= |groups|
  {
    if g < |groups| then groups[g := Group(groups[g].header, groups[g].members + [n])]
    else groups + [Group(LowerAll(rules[n].headerName), [n])]
  }

  lemma {:induction false} AddPlaces(rules: seq<HeaderRule>, n: nat, groups: seq<Group>, g: nat, i: nat)
    requires n < |rules| && g <= |groups| && i <= n && (i < n ==> Placed(groups, i))
    ensures Placed(AddMember(rules, n, groups, g), i)
  {
    hide LowerAll;
    var after := AddMember(rules, n, groups, g);
    if i < n {
      var h, k :| 0 <= h < |groups| && 0 <= k < |groups[h].members| && groups[h].members[k] == i;
      assert after[h].members[k] == i;
    } else {
      assert after[g].members[|after[g].members| - 1] == n;
    }
  }

  lemma {:induction false} GroupedStep(rules: seq<HeaderRule>, n: nat, groups: seq<Group>, g: nat)
    requires n < |rules| && Grouped(rules, n, groups) && g <= |groups|
    requires forall k :: 0 <= k < g ==> groups[k].header != LowerAll(rules[n].headerName)
    requires g < |groups| ==> groups[g].header == LowerAll(rules[n].headerName)
    ensures Grouped(rules, n + 1, AddMember(rules, n, groups, g))
  {
    hide LowerAll, Placed;
    var after := AddMember(rules, n, groups, g);
    forall h | 0 <= h < |after| ensures GroupOk(rules, n + 1, after[h]) {
      if h < |groups| {
        assert GroupOk(rules, n, groups[h]);
      }
    }
    forall i: nat | i < n + 1 ensures Placed(after, i) {
      AddPlaces(rules, n, groups, g, i);
    }
  }

  /** Groups rule positions by target header; the rules themselves are not touched. */
  method Analyze(rs: RuleList) returns (groups: seq<Group>)
    ensures Grouped(rs.rules, |rs.rules|, groups)
  {
    hide Grouped, LowerAll;
    groups := [];
    assert Grouped(rs.rules, 0, groups) by { NoGroups(rs.rules); }
    for i := 0 to |rs.rules|
      invariant Grouped(rs.rules, i, groups)
    {
      var key := LowerAll(rs.rules[i].headerName);
      var g := 0;
      while g < |groups| && groups[g].header != key
        invariant g <= |groups| && forall k :: 0 <= k < g ==> groups[k].header != key
      {
        g := g + 1;
      }
      GroupedStep(rs.rules, i, groups, g);
      if g == |groups| {
        groups := groups + [Group(key, [i])];
      } else {
        groups := groups[g := Group(groups[g].header, groups[g].members + [i])];
      }
    }
  }

  lemma {:induction false} NoGroups(rules: seq<HeaderRule>)
    ensures Grouped(rules, 0, [])
  {
  }
}
