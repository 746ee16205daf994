/**
 Facts about the slot and regex numbering: it only grows along a walk, it numbers
 densely and without collision, and once it covers a construct, walking that
 construct again adds nothing.
 */
module Numbering {
  import opened Text
  import opened Ast
  import opened Lowering
  import opened Runtime
  import opened Semantics

  /** `u` keeps every number of `t`. */
  predicate Extends(t: Tables, u: Tables) {
    (forall k :: k in t.slots ==> k in u.slots && u.slots[k] == t.slots[k]) && t.regexes <= u.regexes
  }

  lemma {:induction false} ExtendsTrans(t: Tables, u: Tables, w: Tables)
    requires Extends(t, u) && Extends(u, w)
    ensures Extends(t, w)
  {
  }

  ghost predicate Taken(t: Tables, i: int) {
    exists k :: k in t.slots && t.slots[k] == i
  }

  /** Numbers are exactly 0..count-1, one per key, and patterns are listed once. */
  ghost predicate Dense(t: Tables) {
    && (forall k :: k in t.slots ==> t.slots[k] < |t.slots|)
    && (forall j, k :: j in t.slots && k in t.slots && t.slots[j] == t.slots[k] ==> j == k)
    && (forall i :: 0 <= i < |t.slots| ==> Taken(t, i))
    && (forall i, j :: 0 <= i < j < |t.regexes| ==> t.regexes[i] != t.regexes[j])
  }

  lemma {:induction false} AddSlotFacts(t: Tables, name: string)
    requires Dense(t)
    ensures Extends(t, AddSlot(t, name)) && Dense(AddSlot(t, name)) && name in AddSlot(t, name).slots
  {
    var u := AddSlot(t, name);
    if name !in t.slots {
      assert |u.slots| == |t.slots| + 1;
      forall i | 0 <= i < |u.slots|
        ensures Taken(u, i)
      {
        if i < |t.slots| {
          assert Taken(t, i);
          var k :| k in t.slots && t.slots[k] == i;
          assert k in u.slots && u.slots[k] == i;
        } else {
          assert name in u.slots && u.slots[name] == i;
        }
      }
    }
  }

  lemma {:induction false} AddRegexFacts(t: Tables, e: RegexEntry)
    requires Dense(t)
    ensures Extends(t, AddRegex(t, e)) && Dense(AddRegex(t, e)) && e in AddRegex(t, e).regexes
  {
    assert forall i :: 0 <= i < |t.slots| ==> Taken(t, i) ==> Taken(AddRegex(t, e), i);
  }

  /** A table that keeps the number of `name` looks it up to that number. */
  lemma {:induction false} SlotAbsorbed(t: Tables, name: string, u: Tables)
    requires Extends(AddSlot(t, name), u)
    ensures AddSlot(u, name) == u && SlotOf(u, name) == SlotOf(AddSlot(t, name), name)
  {
    assert name in AddSlot(t, name).slots;
  }

  lemma {:induction false} RegexAbsorbed(t: Tables, e: RegexEntry, u: Tables)
    requires Extends(AddRegex(t, e), u)
    ensures AddRegex(u, e) == u && RegexOf(u, e) == RegexOf(AddRegex(t, e), e)
  {
    var w := AddRegex(t, e);
    var i := RegexIndex(t.regexes, e);
    RegexIndexIs(w.regexes, e, i);
    assert forall k :: 0 <= k <= i ==> u.regexes[k] == w.regexes[k];
    RegexIndexIs(u.regexes, e, i);
  }

  lemma {:induction false} RegexIndexIs(regexes: seq<RegexEntry>, e: RegexEntry, i: nat)
    requires i < |regexes| && regexes[i] == e && forall k :: 0 <= k < i ==> regexes[k] != e
    ensures RegexIndex(regexes, e) == i
  {
  }

  lemma {:induction false} ScanSegmentsOk(t: Tables, segments: seq<Segment>)
    requires Dense(t)
    ensures Extends(t, ScanSegments(t, segments)) && Dense(ScanSegments(t, segments))
  {
    hide Dense;
    if segments != [] {
      ScanSegmentsOk(t, segments[..|segments| - 1]);
      var last := segments[|segments| - 1];
      if last.Reference? && last.ref.kind == RuleRef {
        AddSlotFacts(ScanSegments(t, segments[..|segments| - 1]), RefSlotKey(last.ref));
      }
    }
  }

  lemma {:induction false} ScanValueOk(t: Tables, v: Value)
    requires Dense(t)
    ensures Extends(t, ScanValue(t, v)) && Dense(ScanValue(t, v))
  {
    hide Dense;
    ScanSegmentsOk(t, v.segments);
  }

  lemma {:induction false} ScanGuardOk(t: Tables, cmp: ComparisonType, mv: Value)
    requires Dense(t)
    ensures Extends(t, ScanGuard(t, cmp, mv)) && Dense(ScanGuard(t, cmp, mv))
  {
    hide Dense, AddRegex;
    AddRegexFacts(t, EntryFor(cmp, mv.PatternText()));
  }

  lemma {:induction false} ScanCapturesOk(t: Tables, rule: string, n: nat)
    requires Dense(t)
    ensures Extends(t, ScanCaptures(t, rule, n)) && Dense(ScanCaptures(t, rule, n))
  {
    hide Dense;
    if n > 0 {
      ScanCapturesOk(t, rule, n - 1);
      AddSlotFacts(ScanCaptures(t, rule, n - 1), CaptureSlotKey(rule, n - 1));
    }
  }

  lemma {:induction false} ScanHeaderActionOk(t: Tables, hr: HeaderRule, idx: nat)
    requires Dense(t)
    ensures Extends(t, ScanHeaderAction(t, hr, idx)) && Dense(ScanHeaderAction(t, hr, idx))
  {
    hide Dense, ScanValue, ScanCaptures;
    ScanValueOk(t, hr.newValue);
    ScanCapturesOk(t, StoreName(hr, idx), CapturingGroups(hr.matchValue.PatternText()) + 1);
    AddSlotFacts(t, StoreName(hr, idx));
  }

  lemma {:induction false} ScanElementOk(t: Tables, hr: HeaderRule, er: ElementRule)
    requires Dense(t)
    ensures Extends(t, ScanElement(t, hr, er)) && Dense(ScanElement(t, hr, er))
  {
    hide Dense, ScanValue, ScanGuard;
    var g := ScanGuard(t, er.comparison, er.matchValue);
    ScanGuardOk(t, er.comparison, er.matchValue);
    ScanValueOk(g, er.newValue);
    AddSlotFacts(g, ElementStoreName(hr, er));
  }

  lemma {:induction false} ScanElementsOk(t: Tables, hr: HeaderRule, n: nat)
    requires Dense(t) && n <= |hr.elementRules|
    ensures Extends(t, ScanElements(t, hr, n)) && Dense(ScanElements(t, hr, n))
  {
    hide Dense, ScanElement;
    if n > 0 {
      ScanElementsOk(t, hr, n - 1);
      ScanElementOk(ScanElements(t, hr, n - 1), hr, hr.elementRules[n - 1]);
    }
  }

  lemma {:induction false} ScanRuleOk(t: Tables, hr: HeaderRule, idx: nat)
    requires Dense(t)
    ensures Extends(t, ScanRule(t, hr, idx)) && Dense(ScanRule(t, hr, idx))
  {
    hide Dense, ScanGuard, ScanHeaderAction, ScanElements;
    var g := ScanGuard(t, hr.comparison, hr.matchValue);
    ScanGuardOk(t, hr.comparison, hr.matchValue);
    ScanHeaderActionOk(g, hr, idx);
    ScanElementsOk(ScanHeaderAction(g, hr, idx), hr, |hr.elementRules|);
  }

  lemma {:induction false} ScanRulesOk(t: Tables, rules: seq<HeaderRule>, n: nat)
    requires Dense(t) && n <= |rules|
    ensures Extends(t, ScanRules(t, rules, n)) && Dense(ScanRules(t, rules, n))
  {
    hide Dense, ScanRule;
    if n > 0 {
      ScanRulesOk(t, rules, n - 1);
      ScanRuleOk(ScanRules(t, rules, n - 1), rules[n - 1], n - 1);
    }
  }

  /** Numbering a ruleset is dense and injective: ids are exactly those below the published counts. */
  lemma {:induction false} NumberingIsDense(rs: Ruleset)
    ensures Dense(TablesOf(rs))
  {
    ScanRulesOk(NO_TABLES, rs.headerRules, |rs.headerRules|);
  }

  // ---- absorption ----------------------------------------------------------

  lemma {:induction false} SegmentsAbsorbed(t: Tables, segments: seq<Segment>, u: Tables)
    requires Dense(t) && Extends(ScanSegments(t, segments), u)
    ensures ScanSegments(u, segments) == u
  {
    hide Dense;
    if segments != [] {
      var front := segments[..|segments| - 1];
      var last := segments[|segments| - 1];
      ScanSegmentsOk(t, front);
      if last.Reference? && last.ref.kind == RuleRef {
        AddSlotFacts(ScanSegments(t, front), RefSlotKey(last.ref));
        SlotAbsorbed(ScanSegments(t, front), RefSlotKey(last.ref), u);
      }
      SegmentsAbsorbed(t, front, u);
    }
  }

  lemma {:induction false} ValueAbsorbed(t: Tables, v: Value, u: Tables)
    requires Dense(t) && Extends(ScanValue(t, v), u)
    ensures ScanValue(u, v) == u
  {
    hide Dense, Extends;
    if !v.Empty() && !v.IsPureLiteral() {
      SegmentsAbsorbed(t, v.segments, u);
    }
  }

  lemma {:induction false} GuardAbsorbed(t: Tables, cmp: ComparisonType, mv: Value, u: Tables)
    requires Extends(ScanGuard(t, cmp, mv), u)
    ensures ScanGuard(u, cmp, mv) == u
  {
    hide AddRegex, Extends;
    if Tested(mv) && IsPattern(cmp) {
      RegexAbsorbed(t, EntryFor(cmp, mv.PatternText()), u);
    }
  }

  lemma {:induction false} CapturesAbsorbed(t: Tables, rule: string, n: nat, u: Tables)
    requires Dense(t) && Extends(ScanCaptures(t, rule, n), u)
    ensures ScanCaptures(u, rule, n) == u
  {
    hide Dense;
    if n > 0 {
      ScanCapturesOk(t, rule, n - 1);
      AddSlotFacts(ScanCaptures(t, rule, n - 1), CaptureSlotKey(rule, n - 1));
      SlotAbsorbed(ScanCaptures(t, rule, n - 1), CaptureSlotKey(rule, n - 1), u);
      CapturesAbsorbed(t, rule, n - 1, u);
    }
  }

  lemma {:induction false} HeaderActionAbsorbed(t: Tables, hr: HeaderRule, idx: nat, u: Tables)
    requires Dense(t) && Extends(ScanHeaderAction(t, hr, idx), u)
    ensures ScanHeaderAction(u, hr, idx) == u
  {
    hide Dense, ScanValue, ScanCaptures, AddSlot, Extends;
    match hr.action
    case AddHeader => ValueAbsorbed(t, hr.newValue, u);
    case ReplaceHeader => if SetsHeader(hr) { ValueAbsorbed(t, hr.newValue, u); }
    case Manipulate => if SetsHeader(hr) { ValueAbsorbed(t, hr.newValue, u); }
    case LogHeader => ValueAbsorbed(t, hr.newValue, u);
    case RejectHeader => ValueAbsorbed(t, hr.newValue, u);
    case StoreHeader =>
      if IsPattern(hr.comparison) {
        CapturesAbsorbed(t, StoreName(hr, idx), CapturingGroups(hr.matchValue.PatternText()) + 1, u);
      } else {
        SlotAbsorbed(t, StoreName(hr, idx), u);
      }
    case _ =>
  }

  lemma {:induction false} ElementAbsorbed(t: Tables, hr: HeaderRule, er: ElementRule, u: Tables)
    requires Dense(t) && Extends(ScanElement(t, hr, er), u)
    ensures ScanElement(u, hr, er) == u
    ensures UriElement(er.kind).Some? ==> ScanGuard(u, er.comparison, er.matchValue) == u
  {
    hide Dense, ScanValue, ScanGuard, AddSlot, Extends;
    if UriElement(er.kind).Some? {
      var g := ScanGuard(t, er.comparison, er.matchValue);
      ScanGuardOk(t, er.comparison, er.matchValue);
      ScanElementActionOk(g, hr, er);
      ExtendsTrans(g, ScanElementAction(g, hr, er), u);
      GuardAbsorbed(t, er.comparison, er.matchValue, u);
      match er.action
      case ReplaceElement => ValueAbsorbed(g, er.newValue, u);
      case RejectElement => ValueAbsorbed(g, er.newValue, u);
      case StoreElement => SlotAbsorbed(g, ElementStoreName(hr, er), u);
      case _ =>
    }
  }

  lemma {:induction false} ScanElementActionOk(t: Tables, hr: HeaderRule, er: ElementRule)
    requires Dense(t)
    ensures Extends(t, ScanElementAction(t, hr, er)) && Dense(ScanElementAction(t, hr, er))
  {
    hide Dense, ScanValue;
    ScanValueOk(t, er.newValue);
    AddSlotFacts(t, ElementStoreName(hr, er));
  }

  lemma {:induction false} ElementsAbsorbed(t: Tables, hr: HeaderRule, n: nat, u: Tables, k: nat)
    requires Dense(t) && k < n <= |hr.elementRules| && Extends(ScanElements(t, hr, n), u)
    ensures ScanElement(u, hr, hr.elementRules[k]) == u
    decreases n
  {
    hide Dense, ScanElement, Extends;
    var before := ScanElements(t, hr, n - 1);
    ScanElementsOk(t, hr, n - 1);
    if k == n - 1 {
      ElementAbsorbed(before, hr, hr.elementRules[k], u);
    } else {
      ScanElementOk(before, hr, hr.elementRules[n - 1]);
      ExtendsTrans(before, ScanElements(t, hr, n), u);
      ElementsAbsorbed(t, hr, n - 1, u, k);
    }
  }

  /** What a table must absorb to run a rule without growing. */
  ghost predicate CoversRule(u: Tables, hr: HeaderRule, idx: nat) {
    && ScanGuard(u, hr.comparison, hr.matchValue) == u
    && ScanHeaderAction(u, hr, idx) == u
    && (!hr.action.RejectHeader? ==>
          forall k :: 0 <= k < |hr.elementRules| ==> ScanElement(u, hr, hr.elementRules[k]) == u)
  }

  lemma {:induction false} RuleAbsorbed(t: Tables, hr: HeaderRule, idx: nat, u: Tables)
    requires Dense(t) && Extends(ScanRule(t, hr, idx), u)
    ensures CoversRule(u, hr, idx)
  {
    hide Dense, ScanGuard, ScanHeaderAction, ScanElements, ScanElement, Extends;
    var g := ScanGuard(t, hr.comparison, hr.matchValue);
    var a := ScanHeaderAction(g, hr, idx);
    ScanGuardOk(t, hr.comparison, hr.matchValue);
    ScanHeaderActionOk(g, hr, idx);
    if !hr.action.RejectHeader? {
      ScanElementsOk(a, hr, |hr.elementRules|);
      ExtendsTrans(a, ScanRule(t, hr, idx), u);
      forall k | 0 <= k < |hr.elementRules|
        ensures ScanElement(u, hr, hr.elementRules[k]) == u
      {
        ElementsAbsorbed(a, hr, |hr.elementRules|, u, k);
      }
    }
    ExtendsTrans(g, a, u);
    GuardAbsorbed(t, hr.comparison, hr.matchValue, u);
    HeaderActionAbsorbed(g, hr, idx, u);
  }

  /** The tables of a ruleset cover each of its rules. */
  lemma {:induction false} RulesAbsorbed(rules: seq<HeaderRule>, n: nat, u: Tables, k: nat)
    requires k < n <= |rules| && Extends(ScanRules(NO_TABLES, rules, n), u)
    ensures CoversRule(u, rules[k], k)
    decreases n
  {
    hide Dense, ScanRule, CoversRule, Extends;
    var before := ScanRules(NO_TABLES, rules, n - 1);
    NoTablesDense();
    ScanRulesOk(NO_TABLES, rules, n - 1);
    if k == n - 1 {
      RuleAbsorbed(before, rules[k], k, u);
    } else {
      ScanRuleOk(before, rules[n - 1], n - 1);
      ExtendsTrans(before, ScanRules(NO_TABLES, rules, n), u);
      RulesAbsorbed(rules, n - 1, u, k);
    }
  }

  lemma {:induction false} NoTablesDense()
    ensures Dense(NO_TABLES)
  {
  }

  lemma {:induction false} ExtendsSelf(t: Tables)
    ensures Extends(t, t)
  {
  }

  /** Scan completeness: running any rule against the scanned tables finds every key. */
  lemma {:induction false} ScanCovers(rs: Ruleset, k: nat)
    requires k < |rs.headerRules|
    ensures CoversRule(TablesOf(rs), rs.headerRules[k], k)
  {
    ExtendsSelf(TablesOf(rs));
    RulesAbsorbed(rs.headerRules, |rs.headerRules|, TablesOf(rs), k);
  }

  // ---- prefixes of a walk ----------------------------------------------------

  /** A prefix of the segments adds no more than the whole. */
  lemma {:induction false} SegmentsPrefix(t: Tables, segments: seq<Segment>, i: nat)
    requires Dense(t) && i <= |segments|
    ensures Extends(ScanSegments(t, segments[..i]), ScanSegments(t, segments)) && Dense(ScanSegments(t, segments[..i]))
    decreases |segments|
  {
    hide Dense, Extends;
    ScanSegmentsOk(t, segments[..i]);
    if i == |segments| {
      assert segments[..i] == segments;
      ExtendsSelf(ScanSegments(t, segments));
    } else {
      var front, last := segments[..|segments| - 1], segments[|segments| - 1];
      SegmentsPrefix(t, front, i);
      assert front[..i] == segments[..i];
      ScanSegmentsOk(t, front);
      ExtendsSelf(ScanSegments(t, front));
      if last.Reference? && last.ref.kind == RuleRef {
        AddSlotFacts(ScanSegments(t, front), RefSlotKey(last.ref));
      }
      ExtendsTrans(ScanSegments(t, segments[..i]), ScanSegments(t, front), ScanSegments(t, segments));
    }
  }

  lemma {:induction false} CapturesPrefix(t: Tables, rule: string, n: nat, i: nat)
    requires Dense(t) && i <= n
    ensures Extends(ScanCaptures(t, rule, i), ScanCaptures(t, rule, n)) && Dense(ScanCaptures(t, rule, i))
    decreases n
  {
    hide Dense, Extends;
    ScanCapturesOk(t, rule, i);
    if i == n {
      ExtendsSelf(ScanCaptures(t, rule, n));
    } else {
      CapturesPrefix(t, rule, n - 1, i);
      ScanCapturesOk(t, rule, n - 1);
      AddSlotFacts(ScanCaptures(t, rule, n - 1), CaptureSlotKey(rule, n - 1));
      ExtendsTrans(ScanCaptures(t, rule, i), ScanCaptures(t, rule, n - 1), ScanCaptures(t, rule, n));
    }
  }

  lemma {:induction false} ElementsPrefix(t: Tables, hr: HeaderRule, n: nat, i: nat)
    requires Dense(t) && i <= n <= |hr.elementRules|
    ensures Extends(ScanElements(t, hr, i), ScanElements(t, hr, n)) && Dense(ScanElements(t, hr, i))
    decreases n
  {
    hide Dense, Extends, ScanElement;
    ScanElementsOk(t, hr, i);
    if i == n {
      ExtendsSelf(ScanElements(t, hr, n));
    } else {
      ElementsPrefix(t, hr, n - 1, i);
      ScanElementsOk(t, hr, n - 1);
      ScanElementOk(ScanElements(t, hr, n - 1), hr, hr.elementRules[n - 1]);
      ExtendsTrans(ScanElements(t, hr, i), ScanElements(t, hr, n - 1), ScanElements(t, hr, n));
    }
  }

  lemma {:induction false} RulesPrefix(rules: seq<HeaderRule>, n: nat, i: nat)
    requires i <= n <= |rules|
    ensures Extends(ScanRules(NO_TABLES, rules, i), ScanRules(NO_TABLES, rules, n)) && Dense(ScanRules(NO_TABLES, rules, i))
    decreases n
  {
    hide Dense, Extends, ScanRule;
    NoTablesDense();
    ScanRulesOk(NO_TABLES, rules, i);
    if i == n {
      ExtendsSelf(ScanRules(NO_TABLES, rules, n));
    } else {
      RulesPrefix(rules, n - 1, i);
      ScanRulesOk(NO_TABLES, rules, n - 1);
      ScanRuleOk(ScanRules(NO_TABLES, rules, n - 1), rules[n - 1], n - 1);
      ExtendsTrans(ScanRules(NO_TABLES, rules, i), ScanRules(NO_TABLES, rules, n - 1), ScanRules(NO_TABLES, rules, n));
    }
  }

  /** What a rule numbers at each stage is kept by the numbering of the whole rule. */
  lemma {:induction false} RuleTables(u: Tables, hr: HeaderRule, idx: nat, t: Tables)
    requires Dense(u) && Extends(ScanRule(u, hr, idx), t)
    ensures
      var g := ScanGuard(u, hr.comparison, hr.matchValue);
      var a := ScanHeaderAction(g, hr, idx);
      Dense(g) && Dense(a) && Extends(g, t) && Extends(a, t) &&
      (!hr.action.RejectHeader? ==> Extends(ScanElements(a, hr, |hr.elementRules|), t))
  {
    hide Dense, Extends, ScanGuard, ScanHeaderAction, ScanElements;
    var g := ScanGuard(u, hr.comparison, hr.matchValue);
    var a := ScanHeaderAction(g, hr, idx);
    ScanGuardOk(u, hr.comparison, hr.matchValue);
    ScanHeaderActionOk(g, hr, idx);
    if !hr.action.RejectHeader? {
      ScanElementsOk(a, hr, |hr.elementRules|);
      ExtendsTrans(a, ScanElements(a, hr, |hr.elementRules|), t);
    }
    ExtendsTrans(g, a, t);
  }

  // ---- steady tables ---------------------------------------------------------

  lemma {:induction false} ExtendsBoth(t: Tables, u: Tables)
    requires Extends(t, u) && Extends(u, t)
    ensures t == u
  {
    assert t.slots == u.slots;
  }

  /** Tables that absorb a list absorb each of its prefixes. */
  lemma {:induction false} SegmentsSteady(t: Tables, segments: seq<Segment>, i: nat)
    requires Dense(t) && ScanSegments(t, segments) == t && i <= |segments|
    ensures ScanSegments(t, segments[..i]) == t
  {
    hide Dense, Extends;
    ScanSegmentsOk(t, segments[..i]);
    SegmentsPrefix(t, segments, i);
    ExtendsBoth(t, ScanSegments(t, segments[..i]));
  }

  lemma {:induction false} RegexSteady(t: Tables, e: RegexEntry)
    ensures Semantics.AddRegex(t, e) == t ==> e in t.regexes
  {
  }

  /** Tables that absorb an element rule absorb its guard on its own. */
  lemma {:induction false} ElementSteady(t: Tables, hr: HeaderRule, er: ElementRule)
    requires Dense(t) && ScanElement(t, hr, er) == t && UriElement(er.kind).Some?
    ensures ScanGuard(t, er.comparison, er.matchValue) == t
  {
    hide Dense, Extends, ScanGuard, ScanElementAction;
    var g := ScanGuard(t, er.comparison, er.matchValue);
    ScanGuardOk(t, er.comparison, er.matchValue);
    ScanElementActionOk(g, hr, er);
    ExtendsBoth(t, g);
  }

  lemma {:induction false} CapturesSteady(t: Tables, rule: string, n: nat, i: nat)
    requires Dense(t) && ScanCaptures(t, rule, n) == t && i <= n
    ensures ScanCaptures(t, rule, i) == t
  {
    hide Dense, Extends;
    ScanCapturesOk(t, rule, i);
    CapturesPrefix(t, rule, n, i);
    ExtendsBoth(t, ScanCaptures(t, rule, i));
  }
}
