/**
 Rule fusion preserves meaning: replacing adjacent manipulate rules by one rule with both
 element lists changes neither the numbering nor the outcome, on any message and context.
 */
module Fusion {
  import opened Text
  import opened Ast
  import opened Lowering
  import opened Runtime
  import opened Semantics
  import opened Numbering
  import opened Optimizer
  import M = Message
  import Uri

  predicate ElementStoresNamed(hr: HeaderRule) {
    forall k :: 0 <= k < |hr.elementRules| && hr.elementRules[k].action.StoreElement? ==> hr.elementRules[k].name != ""
  }

  predicate StoreNamed(hr: HeaderRule) {
    hr.action.StoreHeader? ==> hr.name != ""
  }

  /** No guard to evaluate a second time: match-values that are empty or references always pass. */
  predicate Unguarded(a: HeaderRule, b: HeaderRule) {
    !Tested(a.matchValue) && !Tested(b.matchValue)
  }

  /** An element rule that does not write the header. */
  predicate LeavesHeader(er: ElementRule) {
    UriElement(er.kind).None? || !(er.action.ReplaceElement? || er.action.DeleteElement?)
  }

  /** An element rule that does not match a pattern. */
  predicate LeavesCaptures(er: ElementRule) {
    UriElement(er.kind).None? || !Tested(er.matchValue) || !IsPattern(er.comparison)
  }

  /** The rules share a guard, and what the first one does leaves it, and the captures it records, as they were. */
  predicate SameGuardAfter(a: HeaderRule, b: HeaderRule) {
    && a.matchValue == b.matchValue && !SetsHeader(a)
    && (forall k :: 0 <= k < |a.elementRules| ==> LeavesHeader(a.elementRules[k]))
    && (IsPattern(a.comparison) ==> forall k :: 0 <= k < |a.elementRules| ==> LeavesCaptures(a.elementRules[k]))
  }

  /** No header-level replacement that the element rules of the other rule would switch off, or lose. */
  predicate NoneLost(a: HeaderRule, b: HeaderRule) {
    !SetsHeader(b) && (SetsHeader(a) ==> b.elementRules == [])
  }

  /** Unnamed element stores of `b` go by the name of their rule. */
  predicate StoresAlike(a: HeaderRule, b: HeaderRule) {
    a.name == b.name || ElementStoresNamed(b)
  }

  /** What a fusible pair must satisfy for fusing to change nothing. */
  predicate FuseSafe(a: HeaderRule, b: HeaderRule) {
    (Unguarded(a, b) || SameGuardAfter(a, b)) && NoneLost(a, b) && StoresAlike(a, b) && a.headerName == b.headerName
  }

  /** A manipulate rule whose meaning is its filters and its element rules. */
  predicate PureManipulate(hr: HeaderRule) {
    hr.action.Manipulate? && !Tested(hr.matchValue) && !SetsHeader(hr)
  }

  // ---- element rules of the fused rule -------------------------------------

  /** Two rules whose element rules mean the same: same header, and same name where one is used. */
  predicate SameTarget(a: HeaderRule, b: HeaderRule, er: ElementRule) {
    a.headerName == b.headerName && (er.action.StoreElement? && er.name == "" ==> a.name == b.name)
  }

  lemma {:induction false} SameElement(t: Tables, a: HeaderRule, b: HeaderRule, er: ElementRule, s: State)
    requires SameTarget(a, b, er)
    ensures ElementMeaning(t, a, er, s) == ElementMeaning(t, b, er, s)
  {
    hide Guard, ValueText, MessageOr, Uri.Component, M.GetHeader, WriteElement, SlotOf;
  }

  lemma {:induction false} SameElementScan(t: Tables, a: HeaderRule, b: HeaderRule, er: ElementRule)
    requires SameTarget(a, b, er)
    ensures ScanElement(t, a, er) == ScanElement(t, b, er)
  {
    hide ScanGuard, ScanValue;
  }

  /** The first element rules of the fused rule are those of `a`. */
  lemma {:induction false} FusedFront(t: Tables, a: HeaderRule, b: HeaderRule, n: nat, s: State)
    requires n <= |a.elementRules|
    ensures Elements(t, FusedPair(a, b), n, s) == Elements(t, a, n, s)
    ensures ScanElements(t, FusedPair(a, b), n) == ScanElements(t, a, n)
  {
    hide ElementMeaning, ScanElement;
    if n > 0 {
      var f := FusedPair(a, b);
      FusedFront(t, a, b, n - 1, s);
      assert f.elementRules[n - 1] == a.elementRules[n - 1];
      SameElement(t, f, a, a.elementRules[n - 1], Elements(t, a, n - 1, s).state);
      SameElementScan(ScanElements(t, a, n - 1), f, a, a.elementRules[n - 1]);
    }
  }

  ghost function Onward(t: Tables, o: Outcome, b: HeaderRule, n: nat): Outcome
    requires n <= |b.elementRules|
  {
    if o.flow.Rejected? then o else Elements(t, b, n, o.state)
  }

  /** The rest are those of `b`, run on what `a` left. */
  lemma {:induction false} FusedBack(t: Tables, a: HeaderRule, b: HeaderRule, n: nat, s: State)
    requires n <= |b.elementRules| && a.headerName == b.headerName && StoresAlike(a, b)
    ensures Elements(t, FusedPair(a, b), |a.elementRules| + n, s) ==
            Onward(t, Elements(t, a, |a.elementRules|, s), b, n)
    ensures ScanElements(t, FusedPair(a, b), |a.elementRules| + n) ==
            ScanElements(ScanElements(t, a, |a.elementRules|), b, n)
  {
    hide ElementMeaning, ScanElement;
    var f, m := FusedPair(a, b), |a.elementRules|;
    if n == 0 {
      FusedFront(t, a, b, m, s);
    } else {
      FusedBack(t, a, b, n - 1, s);
      var er := b.elementRules[n - 1];
      assert f.elementRules[m + n - 1] == er;
      SameElement(t, f, b, er, Elements(t, f, m + n - 1, s).state);
      SameElementScan(ScanElements(t, f, m + n - 1), f, b, er);
    }
  }

  // ---- the filters ---------------------------------------------------------

  lemma {:induction false} ElementKeepsStart(t: Tables, hr: HeaderRule, er: ElementRule, s: State)
    ensures ElementMeaning(t, hr, er, s).state.msg.start == s.msg.start
  {
    hide Guard, ValueText, MessageOr, Uri.Component, M.GetHeader, SlotOf, Uri.Rebuild;
  }

  lemma {:induction false} ElementsKeepStart(t: Tables, hr: HeaderRule, n: nat, s: State)
    requires n <= |hr.elementRules|
    ensures Elements(t, hr, n, s).state.msg.start == s.msg.start
  {
    hide ElementMeaning;
    if n > 0 {
      ElementsKeepStart(t, hr, n - 1, s);
      ElementKeepsStart(t, hr, hr.elementRules[n - 1], Elements(t, hr, n - 1, s).state);
    }
  }

  predicate Passes(hr: HeaderRule, m: M.Message) {
    TypePasses(hr, m) && MethodPasses(hr, m)
  }

  ghost function GuardOf(t: Tables, hr: HeaderRule, s: State): (Context, bool) {
    Guard(t, hr.comparison, AnyValue, hr.matchValue, M.GetHeader(s.msg, hr.headerName), s.ctx)
  }

  /** A manipulate rule that sets no header is its filters, its guard, then its element rules. */
  lemma {:induction false} ManipulateMeaning(t: Tables, hr: HeaderRule, idx: nat, s: State)
    requires hr.action.Manipulate? && !SetsHeader(hr)
    ensures RuleMeaning(t, hr, idx, s) ==
      if !Passes(hr, s.msg) then Outcome(s, Continue)
      else if GuardOf(t, hr, s).1 then Elements(t, hr, |hr.elementRules|, s.(ctx := GuardOf(t, hr, s).0))
      else Outcome(s.(ctx := GuardOf(t, hr, s).0), Continue)
    ensures ScanRule(t, hr, idx) == ScanElements(ScanGuard(t, hr.comparison, hr.matchValue), hr, |hr.elementRules|)
  {
    hide Elements, ScanElements, ScanGuard, Guard, ValueText, M.GetHeader, TypePasses, MethodPasses;
  }

  lemma {:induction false} Unguards(t: Tables, hr: HeaderRule, s: State)
    requires !Tested(hr.matchValue)
    ensures GuardOf(t, hr, s) == (s.ctx, true) && ScanGuard(t, hr.comparison, hr.matchValue) == t
    ensures s.(ctx := s.ctx) == s
  {
    hide M.GetHeader;
  }

  lemma {:induction false} FiltersAgree(a: HeaderRule, b: HeaderRule, m: M.Message, n: M.Message)
    requires a.msgType == b.msgType && a.methods == b.methods && m.start == n.start
    ensures Passes(a, m) == Passes(b, n)
  {
    hide IEquals;
  }

  // ---- the guard, evaluated again -------------------------------------------

  /** Contexts in which patterns match alike, and with the same captures recorded. */
  ghost predicate SameMatch(a: Context, b: Context) {
    a.regexes == b.regexes && a.engine == b.engine && a.hasMatch == b.hasMatch && a.lastMatch == b.lastMatch
  }

  lemma {:induction false} GuardLeaves(
    t: Tables, cmp: ComparisonType, mvt: MatchValType, mv: Value, subject: string, ctx: Context)
    requires !Tested(mv) || !IsPattern(cmp)
    ensures Guard(t, cmp, mvt, mv, subject, ctx).0 == ctx
  {
    hide RegexOf, PlainMatch;
  }

  lemma {:induction false} QuietAction(
    t: Tables, hr: HeaderRule, er: ElementRule, elem: nat, hv: string, ev: string, s: State)
    requires !(er.action.ReplaceElement? || er.action.DeleteElement?)
    ensures var o := ElementAct(t, hr, er, elem, hv, ev, s); o.state.msg == s.msg && SameMatch(o.state.ctx, s.ctx)
  {
    hide ValueText, MessageOr, SlotOf;
  }

  lemma {:induction false} QuietElement(t: Tables, hr: HeaderRule, er: ElementRule, s: State)
    requires LeavesHeader(er)
    ensures ElementMeaning(t, hr, er, s).state.msg == s.msg
    ensures LeavesCaptures(er) ==> SameMatch(ElementMeaning(t, hr, er, s).state.ctx, s.ctx)
  {
    hide Guard, ElementAct, Uri.Component, M.GetHeader, Tested, SameMatch;
    if UriElement(er.kind).Some? {
      var elem := UriElement(er.kind).value;
      var hv := M.GetHeader(s.msg, hr.headerName);
      var ev := Uri.Component(hv, elem);
      var g := Guard(t, er.comparison, er.matchValType, er.matchValue, ev, s.ctx);
      QuietAction(t, hr, er, elem, hv, ev, s.(ctx := g.0));
      if LeavesCaptures(er) {
        GuardLeaves(t, er.comparison, er.matchValType, er.matchValue, ev, s.ctx);
      }
    }
    SameMatchSelf(s.ctx);
  }

  lemma {:induction false} SameMatchSelf(c: Context)
    ensures SameMatch(c, c)
  {
  }

  lemma {:induction false} QuietElements(t: Tables, hr: HeaderRule, n: nat, s: State)
    requires n <= |hr.elementRules| && forall k :: 0 <= k < n ==> LeavesHeader(hr.elementRules[k])
    ensures Elements(t, hr, n, s).state.msg == s.msg
    ensures (forall k :: 0 <= k < n ==> LeavesCaptures(hr.elementRules[k])) ==>
      SameMatch(Elements(t, hr, n, s).state.ctx, s.ctx)
  {
    hide ElementMeaning, LeavesHeader, LeavesCaptures;
    if n > 0 {
      QuietElements(t, hr, n - 1, s);
      QuietElement(t, hr, hr.elementRules[n - 1], Elements(t, hr, n - 1, s).state);
    }
  }

  /** Where its subject and its captures stand, a guard evaluated again decides alike and records nothing new. */
  lemma {:induction false} GuardAgain(t: Tables, cmp: ComparisonType, mv: Value, subject: string, ctx: Context, later: Context)
    requires IsPattern(cmp) ==> SameMatch(later, Guard(t, cmp, AnyValue, mv, subject, ctx).0)
    ensures Guard(t, cmp, AnyValue, mv, subject, later) == (later, Guard(t, cmp, AnyValue, mv, subject, ctx).1)
  {
    hide RegexOf, PlainMatch, Tested;
  }

  /** The second rule's guard, once the first rule's guard was evaluated and, if it passed, its element rules ran. */
  lemma {:induction false} GuardStands(t: Tables, a: HeaderRule, b: HeaderRule, s: State)
    requires SameGuardAfter(a, b) && a.comparison == b.comparison && a.headerName == b.headerName
    ensures
      var g := GuardOf(t, a, s);
      var later := s.(ctx := g.0);
      GuardOf(t, b, if g.1 then Elements(t, a, |a.elementRules|, later).state else later) ==
      ((if g.1 then Elements(t, a, |a.elementRules|, later).state else later).ctx, g.1)
  {
    hide Guard, Elements, M.GetHeader, LeavesHeader, LeavesCaptures, SameMatch, Tested, SetsHeader;
    var g := GuardOf(t, a, s);
    var later := s.(ctx := g.0);
    var subject := M.GetHeader(s.msg, a.headerName);
    SameMatchSelf(g.0);
    QuietElements(t, a, |a.elementRules|, later);
    GuardAgain(t, a.comparison, a.matchValue, subject, s.ctx,
               (if g.1 then Elements(t, a, |a.elementRules|, later).state else later).ctx);
  }

  // ---- one rule for two -----------------------------------------------------

  /** One fused rule does what the two rules do one after the other. */
  lemma {:induction false} FusedRule(t: Tables, a: HeaderRule, b: HeaderRule, i: nat, j: nat, k: nat, s: State)
    requires CanFuse(a, b) && FuseSafe(a, b)
    ensures
      var first := RuleMeaning(t, a, i, s);
      RuleMeaning(t, FusedPair(a, b), k, s) ==
      if first.flow.Rejected? then first else RuleMeaning(t, b, j, first.state)
    ensures Dense(t) || Unguarded(a, b) ==> ScanRule(t, FusedPair(a, b), k) == ScanRule(ScanRule(t, a, i), b, j)
  {
    hide RuleMeaning, ScanRule, Elements, ScanElements, Passes, Tested, StoresAlike, LowerAll, Dense;
    if SetsHeader(a) {
      assert FusedPair(a, b) == a;
      IndexFree(t, a, i, k, s);
      IdleRule(t, b, j, RuleMeaning(t, a, i, s).state);
      IdleRule(ScanRule(t, a, i), b, j, s);
      SetContinues(t, a, i, s);
    } else {
      FusedScan(t, a, b, i, j, k, s);
      if Unguarded(a, b) {
        FusedPure(t, a, b, i, j, k, s);
      } else {
        FusedGuarded(t, a, b, i, j, k, s);
      }
    }
  }

  /** A manipulate rule with no guard, nothing to set and no element rules does nothing. */
  lemma {:induction false} IdleRule(t: Tables, hr: HeaderRule, idx: nat, s: State)
    requires PureManipulate(hr) && hr.elementRules == []
    ensures RuleMeaning(t, hr, idx, s) == Outcome(s, Continue) && ScanRule(t, hr, idx) == t
  {
    hide Passes, GuardOf, ScanGuard;
    ManipulateMeaning(t, hr, idx, s);
    Unguards(t, hr, s);
  }

  lemma {:induction false} SetContinues(t: Tables, hr: HeaderRule, idx: nat, s: State)
    requires hr.action.Manipulate? && hr.elementRules == []
    ensures RuleMeaning(t, hr, idx, s).flow.Continue?
  {
    hide Guard, ValueText, M.GetHeader, TypePasses, MethodPasses, RtSetHeader;
  }

  lemma {:induction false} FusedScan(t: Tables, a: HeaderRule, b: HeaderRule, i: nat, j: nat, k: nat, s: State)
    requires CanFuse(a, b) && FuseSafe(a, b) && !SetsHeader(a)
    ensures Dense(t) || Unguarded(a, b) ==> ScanRule(t, FusedPair(a, b), k) == ScanRule(ScanRule(t, a, i), b, j)
  {
    hide RuleMeaning, ScanRule, Elements, ScanElements, ScanGuard, Passes, GuardOf, Tested, StoresAlike, LowerAll, Dense, Extends;
    var f, start := FusedPair(a, b), ScanGuard(t, a.comparison, a.matchValue);
    ManipulateMeaning(t, a, i, s);
    ManipulateMeaning(t, f, k, s);
    ManipulateMeaning(ScanRule(t, a, i), b, j, s);
    FusedBack(start, a, b, |b.elementRules|, s);
    if Unguarded(a, b) {
      Unguards(t, a, s);
      Unguards(ScanRule(t, a, i), b, s);
    } else if Dense(t) {
      ScanGuardOk(t, a.comparison, a.matchValue);
      ScanElementsOk(start, a, |a.elementRules|);
      GuardAbsorbed(t, a.comparison, a.matchValue, ScanRule(t, a, i));
    }
  }

  lemma {:induction false} FusedPure(t: Tables, a: HeaderRule, b: HeaderRule, i: nat, j: nat, k: nat, s: State)
    requires CanFuse(a, b) && FuseSafe(a, b) && !SetsHeader(a) && Unguarded(a, b)
    ensures
      var first := RuleMeaning(t, a, i, s);
      RuleMeaning(t, FusedPair(a, b), k, s) ==
      if first.flow.Rejected? then first else RuleMeaning(t, b, j, first.state)
  {
    hide RuleMeaning, ScanRule, Elements, ScanElements, ScanGuard, Passes, GuardOf, Tested, StoresAlike, LowerAll;
    var f := FusedPair(a, b);
    var first := RuleMeaning(t, a, i, s);
    FusedBack(t, a, b, |b.elementRules|, s);
    ManipulateMeaning(t, a, i, s);
    ManipulateMeaning(t, f, k, s);
    ManipulateMeaning(t, b, j, first.state);
    Unguards(t, a, s);
    Unguards(t, f, s);
    Unguards(t, b, first.state);
    ElementsKeepStart(t, a, |a.elementRules|, s);
    FiltersAgree(f, a, s.msg, s.msg);
    FiltersAgree(b, a, first.state.msg, s.msg);
  }

  lemma {:induction false} FusedGuarded(t: Tables, a: HeaderRule, b: HeaderRule, i: nat, j: nat, k: nat, s: State)
    requires CanFuse(a, b) && FuseSafe(a, b) && !SetsHeader(a) && SameGuardAfter(a, b)
    ensures
      var first := RuleMeaning(t, a, i, s);
      RuleMeaning(t, FusedPair(a, b), k, s) ==
      if first.flow.Rejected? then first else RuleMeaning(t, b, j, first.state)
  {
    hide RuleMeaning, ScanRule, Elements, ScanElements, ScanGuard, Passes, Guard, Tested, StoresAlike, LowerAll;
    hide M.GetHeader, SameGuardAfter;
    var f := FusedPair(a, b);
    var first := RuleMeaning(t, a, i, s);
    var later := s.(ctx := GuardOf(t, a, s).0);
    assert GuardOf(t, f, s) == GuardOf(t, a, s);
    FusedBack(t, a, b, |b.elementRules|, later);
    ManipulateMeaning(t, a, i, s);
    ManipulateMeaning(t, f, k, s);
    ManipulateMeaning(t, b, j, first.state);
    GuardStands(t, a, b, s);
    ElementsKeepStart(t, a, |a.elementRules|, later);
    FiltersAgree(f, a, s.msg, s.msg);
    FiltersAgree(b, a, first.state.msg, s.msg);
  }

  // ---- whole rulesets ------------------------------------------------------

  /** Same numbering, and same outcome under every numbering, message and context. */
  ghost predicate SameEffect(a: seq<HeaderRule>, b: seq<HeaderRule>) {
    && ScanRules(NO_TABLES, a, |a|) == ScanRules(NO_TABLES, b, |b|)
    && (forall t: Tables, s: State :: Rules(t, a, |a|, s) == Rules(t, b, |b|, s))
  }

  lemma {:induction false} SameEffectMeaning(a: Ruleset, b: Ruleset, s: State)
    requires SameEffect(a.headerRules, b.headerRules)
    ensures TablesOf(a) == TablesOf(b) && Meaning(a, s) == Meaning(b, s)
  {
  }

  lemma {:induction false} PrefixRules(t: Tables, a: seq<HeaderRule>, b: seq<HeaderRule>, n: nat, s: State)
    requires n <= |a|
    ensures Rules(t, a + b, n, s) == Rules(t, a, n, s)
    ensures ScanRules(t, a + b, n) == ScanRules(t, a, n)
  {
    hide RuleMeaning, ScanRule;
    if n > 0 {
      PrefixRules(t, a, b, n - 1, s);
    }
  }

  ghost function Then(t: Tables, o: Outcome, hr: HeaderRule, idx: nat): Outcome {
    if o.flow.Rejected? then o else RuleMeaning(t, hr, idx, o.state)
  }

  lemma {:induction false} RulesSnoc(t: Tables, a: seq<HeaderRule>, hr: HeaderRule, s: State)
    ensures Rules(t, a + [hr], |a| + 1, s) == Then(t, Rules(t, a, |a|, s), hr, |a|)
    ensures ScanRules(t, a + [hr], |a| + 1) == ScanRule(ScanRules(t, a, |a|), hr, |a|)
  {
    hide RuleMeaning, ScanRule;
    PrefixRules(t, a, [hr], |a|, s);
  }

  /** A rule without an unnamed store means the same wherever it stands. */
  lemma {:induction false} IndexFree(t: Tables, hr: HeaderRule, i: nat, j: nat, s: State)
    requires i == j || StoreNamed(hr)
    ensures RuleMeaning(t, hr, i, s) == RuleMeaning(t, hr, j, s)
    ensures ScanRule(t, hr, i) == ScanRule(t, hr, j)
  {
    hide Guard, Elements, ScanElements, ScanGuard, ScanValue, ValueText, MessageOr, M.GetHeader, StoreCaptures, SlotOf;
    hide ScanCaptures, TypePasses, MethodPasses;
  }

  /** Adding the same rule to both keeps two rulesets alike. */
  lemma {:induction false} SameEffectSnoc(a: seq<HeaderRule>, b: seq<HeaderRule>, hr: HeaderRule)
    requires SameEffect(a, b) && (|a| == |b| || StoreNamed(hr))
    ensures SameEffect(a + [hr], b + [hr])
  {
    hide RuleMeaning, ScanRule, Rules, ScanRules, StoreNamed;
    forall t: Tables, s: State
      ensures Rules(t, a + [hr], |a + [hr]|, s) == Rules(t, b + [hr], |b + [hr]|, s)
    {
      RulesSnoc(t, a, hr, s);
      RulesSnoc(t, b, hr, s);
      IndexFree(t, hr, |a|, |b|, Rules(t, a, |a|, s).state);
    }
    ghost var any: State :| true;
    RulesSnoc(NO_TABLES, a, hr, any);
    RulesSnoc(NO_TABLES, b, hr, any);
    IndexFree(ScanRules(NO_TABLES, a, |a|), hr, |a|, |b|, any);
  }

  /** Fusing the last two rules changes nothing. */
  lemma {:induction false} FuseLast(g: seq<HeaderRule>, a: HeaderRule, b: HeaderRule)
    requires CanFuse(a, b) && FuseSafe(a, b)
    ensures SameEffect(g + [a] + [b], g + [FusedPair(a, b)])
  {
    hide RuleMeaning, ScanRule, Rules, ScanRules, FuseSafe, CanFuse, Dense, Extends;
    var f := FusedPair(a, b);
    forall t: Tables, s: State
      ensures Rules(t, g + [a] + [b], |g + [a] + [b]|, s) == Rules(t, g + [f], |g + [f]|, s)
    {
      RulesSnoc(t, g, a, s);
      RulesSnoc(t, g + [a], b, s);
      RulesSnoc(t, g, f, s);
      FusedRule(t, a, b, |g|, |g| + 1, |g|, Rules(t, g, |g|, s).state);
    }
    ghost var any: State :| true;
    RulesSnoc(NO_TABLES, g, a, any);
    RulesSnoc(NO_TABLES, g + [a], b, any);
    RulesSnoc(NO_TABLES, g, f, any);
    NoTablesDense();
    ScanRulesOk(NO_TABLES, g, |g|);
    FusedRule(ScanRules(NO_TABLES, g, |g|), a, b, |g|, |g| + 1, |g|, any);
  }

  lemma {:induction false} SameEffectTrans(a: seq<HeaderRule>, b: seq<HeaderRule>, c: seq<HeaderRule>)
    requires SameEffect(a, b) && SameEffect(b, c)
    ensures SameEffect(a, c)
  {
    hide Rules, ScanRules;
    forall t: Tables, s: State ensures Rules(t, a, |a|, s) == Rules(t, c, |c|, s) {
      assert Rules(t, a, |a|, s) == Rules(t, b, |b|, s);
    }
  }

  /** Fusing two adjacent rules anywhere in a ruleset changes nothing. */
  lemma {:induction false} FuseAnywhere(g: seq<HeaderRule>, a: HeaderRule, b: HeaderRule, post: seq<HeaderRule>)
    requires CanFuse(a, b) && FuseSafe(a, b) && forall hr <- post :: StoreNamed(hr)
    ensures SameEffect(g + [a] + [b] + post, g + [FusedPair(a, b)] + post)
  {
    hide SameEffect, FuseSafe, CanFuse, StoreNamed;
    var x, y := g + [a] + [b], g + [FusedPair(a, b)];
    if post == [] {
      FuseLast(g, a, b);
      assert x + post == x && y + post == y;
    } else {
      var front, last := post[..|post| - 1], post[|post| - 1];
      FuseAnywhere(g, a, b, front);
      SameEffectSnoc(x + front, y + front, last);
      assert (x + front) + [last] == x + post && (y + front) + [last] == y + post;
    }
  }

  // ---- the whole pass ------------------------------------------------------

  /** Whether the next rule may join what the pass has fused so far, `n` rules in. */
  predicate JoinSafe(fused: seq<HeaderRule>, n: nat, hr: HeaderRule) {
    && (fused != [] && CanFuse(fused[|fused| - 1], hr) ==> FuseSafe(fused[|fused| - 1], hr))
    && (|fused| < n ==> StoreNamed(hr))
  }

  /** Rules of which each pair the pass fuses is safe, with no unnamed store behind a fused pair. */
  predicate FuseReady(rules: seq<HeaderRule>) {
    rules != [] ==>
      FuseReady(rules[..|rules| - 1]) && JoinSafe(Fused(rules[..|rules| - 1]), |rules| - 1, rules[|rules| - 1])
  }

  lemma {:induction false} FusedShrinks(rules: seq<HeaderRule>)
    ensures |Fused(rules)| <= |rules|
  {
    hide CanFuse;
    if rules != [] {
      FusedShrinks(rules[..|rules| - 1]);
    }
  }

  /** The fusing half of the merging pass preserves meaning on every ruleset that is ready for it. */
  lemma {:induction false} FusingPreserves(rules: seq<HeaderRule>)
    requires FuseReady(rules)
    ensures SameEffect(rules, Fused(rules))
  {
    hide CanFuse, FuseSafe, StoreNamed, Rules, ScanRules;
    if rules != [] {
      var front, last := rules[..|rules| - 1], rules[|rules| - 1];
      assert front + [last] == rules;
      FusingPreserves(front);
      FusedShrinks(front);
      SameEffectSnoc(front, Fused(front), last);
      var f := Fused(front);
      if f != [] && CanFuse(f[|f| - 1], last) {
        var g, back := f[..|f| - 1], f[|f| - 1];
        FuseLast(g, back, last);
        assert g + [back] == f;
        SameEffectTrans(rules, f + [last], Fused(rules));
      }
    }
  }
}
