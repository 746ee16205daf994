/**
 Capture slots end to end: what a pattern-rule store writes is what a later
 back-reference to it reads, until the name is stored again.
 */
module CaptureSlots {
  import opened Text
  import opened Ast
  import opened Lowering
  import opened Runtime
  import opened Semantics
  import opened Numbering
  import opened ValueParser
  import Fragments
  import M = Message
  import Uri

  // ---- keys ----------------------------------------------------------------

  lemma {:induction false} KeyBase(n: string, k: nat)
    requires '.' !in n
    ensures RefBaseName(CaptureSlotKey(n, k)) == n
  {
    if k == 0 {
      assert IndexOf(n, '.') == |n|;
    } else {
      BaseNameIs(n, "$" + Decimal(k));
      assert n + ".$" + Decimal(k) == n + "." + ("$" + Decimal(k));
    }
  }

  /** No two captures of undotted names share a key. */
  lemma {:induction false} KeyInjective(m: string, g: nat, n: string, k: nat)
    requires '.' !in m && '.' !in n && CaptureSlotKey(m, g) == CaptureSlotKey(n, k)
    ensures m == n && g == k
  {
    hide Decimal;
    KeyBase(m, g);
    KeyBase(n, k);
    var a, b := CaptureSlotKey(m, g), CaptureSlotKey(n, k);
    if g > 0 && k > 0 {
      assert a[|m| + 2..] == Decimal(g) && b[|m| + 2..] == Decimal(k);
      DecimalRoundTrip(g);
      DecimalRoundTrip(k);
    }
  }

  /** The key of an unnamed element store is no capture's key. */
  lemma {:induction false} ElementKeyApart(m: string, n: string, k: nat)
    requires '.' !in m && '.' !in n
    ensures m + ".el" != CaptureSlotKey(n, k)
  {
    BaseNameIs(m, "el");
    assert m + "." + "el" == m + ".el";
    KeyBase(n, k);
    assert (m + ".el")[|m| + 1] == 'e';
    assert k > 0 ==> CaptureSlotKey(n, k)[|n| + 1] == '$';
    assert '.' in m + ".el" by { assert (m + ".el")[|m|] == '.'; }
  }

  predicate PlainNames(rs: Ruleset) {
    forall hr <- rs.headerRules :: PlainRule(hr)
  }

  predicate PlainRule(hr: HeaderRule) {
    '.' !in hr.name && forall er <- hr.elementRules :: '.' !in er.name
  }

  lemma {:induction false} StoreNamePlain(hr: HeaderRule, idx: nat)
    requires PlainRule(hr)
    ensures '.' !in StoreName(hr, idx)
  {
  }

  /** Whether an element rule writes the slot of `n` itself. */
  predicate ElementStores(hr: HeaderRule, er: ElementRule, n: string) {
    er.action.StoreElement? && ElementStoreName(hr, er) == n
  }

  predicate ElementsStore(hr: HeaderRule, n: string) {
    exists k :: 0 <= k < |hr.elementRules| && ElementStores(hr, hr.elementRules[k], n)
  }

  /** Whether a rule, or an element rule of it, stores under the name `n`. */
  predicate StoresName(hr: HeaderRule, idx: nat, n: string) {
    (hr.action.StoreHeader? && StoreName(hr, idx) == n) || ElementsStore(hr, n)
  }

  // ---- one slot ------------------------------------------------------------

  /** Slot `i` holds the same text in both contexts, and the table its size. */
  predicate SameSlot(a: Context, b: Context, i: nat) {
    |a.slots| == |b.slots| && (i < |a.slots| ==> a.slots[i] == b.slots[i])
  }

  lemma {:induction false} Distinct(t: Tables, a: string, b: string)
    requires Dense(t) && a in t.slots && b in t.slots && a != b
    ensures SlotOf(t, a) != SlotOf(t, b)
  {
  }

  lemma {:induction false} GuardKeeps(
    t: Tables, cmp: ComparisonType, mvt: MatchValType, mv: Value, subject: string, ctx: Context)
    ensures Guard(t, cmp, mvt, mv, subject, ctx).0.slots == ctx.slots
  {
    hide PlainMatch, RegexOf;
  }

  lemma {:induction false} CapturesIn(t: Tables, rule: string, n: nat, g: nat)
    requires Dense(t) && ScanCaptures(t, rule, n) == t && g < n
    ensures CaptureSlotKey(rule, g) in t.slots
  {
    hide Dense;
    CapturesSteady(t, rule, n, g);
    CapturesSteady(t, rule, n, g + 1);
    assert CaptureSlotKey(rule, g) in AddSlot(t, CaptureSlotKey(rule, g)).slots;
  }

  /** Storing groups 0..n-1 of `rule` puts each capture in its slot and touches no other key. */
  lemma {:induction false} GroupsStored(t: Tables, rule: string, n: nat, ctx: Context, key: string)
    requires Dense(t) && '.' !in rule && key in t.slots && |t.slots| <= |ctx.slots|
    requires forall g: nat :: g < n ==> CaptureSlotKey(rule, g) in t.slots
    ensures
      var after := StoreCaptures(t, rule, n, ctx);
      && after == ctx.(slots := after.slots) && |after.slots| == |ctx.slots|
      && ((forall g: nat :: g < n ==> CaptureSlotKey(rule, g) != key) ==>
            after.slots[SlotOf(t, key)] == ctx.slots[SlotOf(t, key)])
      && (forall g: nat :: g < n && CaptureSlotKey(rule, g) == key ==>
            after.slots[SlotOf(t, key)] == RtGetCapture(ctx, g))
  {
    hide CaptureSlotKey;
    if n > 0 {
      GroupsStored(t, rule, n - 1, ctx, key);
      var last := CaptureSlotKey(rule, n - 1);
      assert last in t.slots;
      if last != key {
        Distinct(t, last, key);
      } else {
        forall g: nat | g < n - 1 ensures CaptureSlotKey(rule, g) != key {
          if CaptureSlotKey(rule, g) == key {
            KeyInjective(rule, g, rule, n - 1);
          }
        }
      }
    }
  }

  // ---- what a rule leaves alone --------------------------------------------

  lemma {:induction false} StoreKeeps(t: Tables, hr: HeaderRule, idx: nat, s: State, n: string, k: nat)
    requires Dense(t) && PlainRule(hr) && '.' !in n && CaptureSlotKey(n, k) in t.slots && |t.slots| <= |s.ctx.slots|
    requires ScanStore(t, hr, idx) == t && StoreName(hr, idx) != n
    ensures SameSlot(StoreMeaning(t, hr, idx, s).ctx, s.ctx, SlotOf(t, CaptureSlotKey(n, k)))
  {
    hide CaptureSlotKey, StoreCaptures, ScanCaptures, Dense, StoreName, M.GetHeader, SlotOf, CapturingGroups, PlainRule;
    var rule, key := StoreName(hr, idx), CaptureSlotKey(n, k);
    StoreNamePlain(hr, idx);
    if IsPattern(hr.comparison) {
      var count := CapturingGroups(hr.matchValue.PatternText()) + 1;
      forall g: nat | g < count ensures CaptureSlotKey(rule, g) in t.slots && CaptureSlotKey(rule, g) != key {
        CapturesIn(t, rule, count, g);
        if CaptureSlotKey(rule, g) == key {
          KeyInjective(rule, g, n, k);
        }
      }
      GroupsStored(t, rule, count, s.ctx, key);
    } else {
      BareKey(rule);
      if rule == key {
        KeyInjective(rule, 0, n, k);
      }
      assert rule in AddSlot(t, rule).slots;
      Distinct(t, rule, key);
    }
  }

  lemma {:induction false} BareKey(rule: string)
    ensures CaptureSlotKey(rule, 0) == rule
  {
  }

  lemma {:induction false} HeaderActKeeps(t: Tables, hr: HeaderRule, idx: nat, s: State, n: string, k: nat)
    requires Dense(t) && PlainRule(hr) && '.' !in n && CaptureSlotKey(n, k) in t.slots && |t.slots| <= |s.ctx.slots|
    requires ScanHeaderAction(t, hr, idx) == t && !(hr.action.StoreHeader? && StoreName(hr, idx) == n)
    ensures SameSlot(HeaderAct(t, hr, idx, s).state.ctx, s.ctx, SlotOf(t, CaptureSlotKey(n, k)))
  {
    hide CaptureSlotKey, StoreMeaning, ScanStore, ScanValue, Dense, ValueText, MessageOr, PlainRule, SlotOf;
    hide M.SetHeader, M.AddHeader, M.DeleteHeader;
    if hr.action.StoreHeader? {
      StoreKeeps(t, hr, idx, s, n, k);
    }
  }

  lemma {:induction false} ElementActKeeps(
    t: Tables, hr: HeaderRule, er: ElementRule, elem: nat, hv: string, ev: string, s: State, n: string, k: nat)
    requires Dense(t) && '.' !in hr.name && '.' !in er.name && '.' !in n
    requires CaptureSlotKey(n, k) in t.slots && |t.slots| <= |s.ctx.slots|
    requires ScanElementAction(t, hr, er) == t && !ElementStores(hr, er, n)
    ensures SameSlot(ElementAct(t, hr, er, elem, hv, ev, s).state.ctx, s.ctx, SlotOf(t, CaptureSlotKey(n, k)))
  {
    hide CaptureSlotKey, ScanValue, Dense, ValueText, MessageOr, SlotOf;
    hide M.SetHeader, M.DeleteHeader, Uri.Rebuild;
    if er.action.StoreElement? {
      var name, key := ElementStoreName(hr, er), CaptureSlotKey(n, k);
      ElementKeyApart(hr.name, n, k);
      BareKey(er.name);
      if er.name != "" && er.name == key {
        KeyInjective(er.name, 0, n, k);
      }
      assert name in AddSlot(t, name).slots;
      Distinct(t, name, key);
    }
  }

  lemma {:induction false} ElementKeeps(t: Tables, hr: HeaderRule, er: ElementRule, s: State, n: string, k: nat)
    requires Dense(t) && '.' !in hr.name && '.' !in er.name && '.' !in n
    requires CaptureSlotKey(n, k) in t.slots && |t.slots| <= |s.ctx.slots|
    requires ScanElement(t, hr, er) == t && !ElementStores(hr, er, n)
    ensures SameSlot(ElementMeaning(t, hr, er, s).state.ctx, s.ctx, SlotOf(t, CaptureSlotKey(n, k)))
  {
    hide CaptureSlotKey, ScanGuard, ScanElementAction, Dense, ElementAct, Guard, Uri.Component, M.GetHeader, SlotOf;
    if UriElement(er.kind).Some? {
      var elem := UriElement(er.kind).value;
      var hv := M.GetHeader(s.msg, hr.headerName);
      var ev := Uri.Component(hv, elem);
      var g := Guard(t, er.comparison, er.matchValType, er.matchValue, ev, s.ctx);
      ElementSteady(t, hr, er);
      GuardKeeps(t, er.comparison, er.matchValType, er.matchValue, ev, s.ctx);
      ElementActKeeps(t, hr, er, elem, hv, ev, s.(ctx := g.0), n, k);
    }
  }

  lemma {:induction false} ElementsKeep(t: Tables, hr: HeaderRule, m: nat, s: State, n: string, k: nat)
    requires Dense(t) && PlainRule(hr) && '.' !in n && m <= |hr.elementRules|
    requires CaptureSlotKey(n, k) in t.slots && |t.slots| <= |s.ctx.slots| && !ElementsStore(hr, n)
    requires forall i :: 0 <= i < |hr.elementRules| ==> ScanElement(t, hr, hr.elementRules[i]) == t
    ensures SameSlot(Elements(t, hr, m, s).state.ctx, s.ctx, SlotOf(t, CaptureSlotKey(n, k)))
  {
    hide CaptureSlotKey, ScanElement, Dense, ElementMeaning, SlotOf;
    if m > 0 {
      ElementsKeep(t, hr, m - 1, s, n, k);
      var before := Elements(t, hr, m - 1, s);
      if before.flow.Continue? {
        assert hr.elementRules[m - 1] in hr.elementRules;
        ElementKeeps(t, hr, hr.elementRules[m - 1], before.state, n, k);
      }
    }
  }

  /** A rule that does not store `n` leaves every capture of `n` where it is. */
  lemma {:induction false} RuleKeeps(t: Tables, hr: HeaderRule, idx: nat, s: State, n: string, k: nat)
    requires Dense(t) && PlainRule(hr) && '.' !in n && CaptureSlotKey(n, k) in t.slots && |t.slots| <= |s.ctx.slots|
    requires CoversRule(t, hr, idx) && !StoresName(hr, idx, n)
    ensures SameSlot(RuleMeaning(t, hr, idx, s).state.ctx, s.ctx, SlotOf(t, CaptureSlotKey(n, k)))
  {
    hide CaptureSlotKey, ScanElement, Dense, Elements, HeaderAct, SlotOf, Guard, ScanHeaderAction, ScanGuard, M.GetHeader;
    hide TypePasses, MethodPasses, PlainRule, ElementsStore;
    var hv := M.GetHeader(s.msg, hr.headerName);
    var g := Guard(t, hr.comparison, AnyValue, hr.matchValue, hv, s.ctx);
    var guarded := s.(ctx := g.0);
    GuardKeeps(t, hr.comparison, AnyValue, hr.matchValue, hv, s.ctx);
    HeaderActKeeps(t, hr, idx, guarded, n, k);
    Fragments.HeaderActFlow(t, hr, idx, guarded);
    if !hr.action.RejectHeader? {
      ElementsKeep(t, hr, |hr.elementRules|, HeaderAct(t, hr, idx, guarded).state, n, k);
    }
  }

  // ---- what no rule changes ------------------------------------------------

  /** The size of the slot table, the regex table and the engine are fixed for a context. */
  ghost predicate SameTables(a: Context, b: Context) {
    |a.slots| == |b.slots| && a.regexes == b.regexes && a.engine == b.engine
  }

  lemma {:induction false} GuardTables(
    t: Tables, cmp: ComparisonType, mvt: MatchValType, mv: Value, subject: string, ctx: Context)
    ensures SameTables(Guard(t, cmp, mvt, mv, subject, ctx).0, ctx)
  {
    hide PlainMatch, RegexOf;
  }

  lemma {:induction false} CapturesTables(t: Tables, rule: string, n: nat, ctx: Context)
    ensures SameTables(StoreCaptures(t, rule, n, ctx), ctx)
  {
    hide CaptureSlotKey, SlotOf;
    if n > 0 {
      CapturesTables(t, rule, n - 1, ctx);
    }
  }

  lemma {:induction false} HeaderActTables(t: Tables, hr: HeaderRule, idx: nat, s: State)
    ensures SameTables(HeaderAct(t, hr, idx, s).state.ctx, s.ctx)
  {
    hide StoreCaptures, ValueText, MessageOr, SlotOf, M.SetHeader, M.AddHeader, M.DeleteHeader;
    CapturesTables(t, StoreName(hr, idx), CapturingGroups(hr.matchValue.PatternText()) + 1, s.ctx);
  }

  lemma {:induction false} ElementTables(t: Tables, hr: HeaderRule, er: ElementRule, s: State)
    ensures SameTables(ElementMeaning(t, hr, er, s).state.ctx, s.ctx)
  {
    hide Guard, ElementAct, Uri.Component, M.GetHeader;
    if UriElement(er.kind).Some? {
      var elem := UriElement(er.kind).value;
      var hv := M.GetHeader(s.msg, hr.headerName);
      var ev := Uri.Component(hv, elem);
      var g := Guard(t, er.comparison, er.matchValType, er.matchValue, ev, s.ctx);
      GuardTables(t, er.comparison, er.matchValType, er.matchValue, ev, s.ctx);
      ElementActTables(t, hr, er, elem, hv, ev, s.(ctx := g.0));
    }
  }

  lemma {:induction false} ElementActTables(
    t: Tables, hr: HeaderRule, er: ElementRule, elem: nat, hv: string, ev: string, s: State)
    ensures SameTables(ElementAct(t, hr, er, elem, hv, ev, s).state.ctx, s.ctx)
  {
    hide ValueText, MessageOr, SlotOf, WriteElement, M.DeleteHeader;
    var e := Evaluated(t, er.newValue, s);
    WriteTables(e, hr.headerName, hv, elem, ValueText(t, er.newValue, s.ctx));
    WriteTables(s, hr.headerName, hv, elem, "");
  }

  lemma {:induction false} WriteTables(s: State, name: string, hv: string, elem: nat, text: string)
    ensures SameTables(WriteElement(s, name, hv, elem, text).ctx, s.ctx)
  {
    hide M.SetHeader, Uri.Rebuild;
  }

  lemma {:induction false} ElementsTables(t: Tables, hr: HeaderRule, m: nat, s: State)
    requires m <= |hr.elementRules|
    ensures SameTables(Elements(t, hr, m, s).state.ctx, s.ctx)
  {
    hide ElementMeaning;
    if m > 0 {
      ElementsTables(t, hr, m - 1, s);
      ElementTables(t, hr, hr.elementRules[m - 1], Elements(t, hr, m - 1, s).state);
    }
  }

  lemma {:induction false} RuleTablesKept(t: Tables, hr: HeaderRule, idx: nat, s: State)
    ensures SameTables(RuleMeaning(t, hr, idx, s).state.ctx, s.ctx)
  {
    hide Guard, HeaderAct, Elements, M.GetHeader, TypePasses, MethodPasses;
    var hv := M.GetHeader(s.msg, hr.headerName);
    var guarded := s.(ctx := Guard(t, hr.comparison, AnyValue, hr.matchValue, hv, s.ctx).0);
    GuardTables(t, hr.comparison, AnyValue, hr.matchValue, hv, s.ctx);
    HeaderActTables(t, hr, idx, guarded);
    ElementsTables(t, hr, |hr.elementRules|, HeaderAct(t, hr, idx, guarded).state);
  }

  lemma {:induction false} RulesTables(t: Tables, rules: seq<HeaderRule>, n: nat, s: State)
    requires n <= |rules|
    ensures SameTables(Rules(t, rules, n, s).state.ctx, s.ctx)
  {
    hide RuleMeaning;
    if n > 0 {
      RulesTables(t, rules, n - 1, s);
      RuleTablesKept(t, rules[n - 1], n - 1, Rules(t, rules, n - 1, s).state);
    }
  }

  // ---- firing --------------------------------------------------------------

  /** A rule fires when every filter and its guard let it. */
  ghost predicate Fires(t: Tables, hr: HeaderRule, s: State) {
    TypePasses(hr, s.msg) && MethodPasses(hr, s.msg) &&
    Guard(t, hr.comparison, AnyValue, hr.matchValue, M.GetHeader(s.msg, hr.headerName), s.ctx).1
  }

  /** The context right after the guard, which holds the captures of the match. */
  ghost function Matched(t: Tables, hr: HeaderRule, s: State): Context {
    Guard(t, hr.comparison, AnyValue, hr.matchValue, M.GetHeader(s.msg, hr.headerName), s.ctx).0
  }

  /** A header-level store of a pattern under `n`, which no element rule of it overwrites. */
  predicate PatternStore(hr: HeaderRule, idx: nat, n: string) {
    hr.action.StoreHeader? && IsPattern(hr.comparison) && StoreName(hr, idx) == n && !ElementsStore(hr, n)
  }

  function Groups(hr: HeaderRule): nat {
    CapturingGroups(hr.matchValue.PatternText())
  }

  lemma {:induction false} StoreWrites(t: Tables, hr: HeaderRule, idx: nat, s: State, k: nat)
    requires Dense(t) && PlainRule(hr) && |t.slots| <= |s.ctx.slots|
    requires ScanStore(t, hr, idx) == t && IsPattern(hr.comparison) && k <= Groups(hr)
    ensures
      var key := CaptureSlotKey(StoreName(hr, idx), k);
      var after := StoreMeaning(t, hr, idx, s).ctx;
      key in t.slots && |after.slots| == |s.ctx.slots| && after.slots[SlotOf(t, key)] == RtGetCapture(s.ctx, k)
  {
    hide CaptureSlotKey, StoreCaptures, ScanCaptures, Dense, StoreName, M.GetHeader, CapturingGroups, PlainRule;
    var rule, count := StoreName(hr, idx), Groups(hr) + 1;
    StoreNamePlain(hr, idx);
    forall g: nat | g < count ensures CaptureSlotKey(rule, g) in t.slots {
      CapturesIn(t, rule, count, g);
    }
    InRange(t, CaptureSlotKey(rule, k));
    GroupsStored(t, rule, count, s.ctx, CaptureSlotKey(rule, k));
  }

  lemma {:induction false} InRange(t: Tables, key: string)
    requires Dense(t) && key in t.slots
    ensures SlotOf(t, key) < |t.slots|
  {
  }

  /** When a pattern store fires, each counted group ends up in the slot of its key. */
  lemma {:induction false} StoreFires(t: Tables, hr: HeaderRule, idx: nat, s: State, n: string, k: nat)
    requires Dense(t) && PlainRule(hr) && CoversRule(t, hr, idx) && |t.slots| <= |s.ctx.slots|
    requires PatternStore(hr, idx, n) && Fires(t, hr, s) && k <= Groups(hr)
    ensures
      var key := CaptureSlotKey(n, k);
      var after := RuleMeaning(t, hr, idx, s).state.ctx;
      key in t.slots && |after.slots| == |s.ctx.slots| &&
      after.slots[SlotOf(t, key)] == RtGetCapture(Matched(t, hr, s), k)
  {
    hide CaptureSlotKey, Dense, Elements, ScanStore, StoreMeaning, SlotOf, Guard, ScanGuard, M.GetHeader, ScanElement;
    hide TypePasses, MethodPasses, PlainRule, ElementsStore, StoreName, RtGetCapture, CapturingGroups, Groups;
    var guarded := s.(ctx := Matched(t, hr, s));
    GuardTables(t, hr.comparison, AnyValue, hr.matchValue, M.GetHeader(s.msg, hr.headerName), s.ctx);
    StoreNamePlain(hr, idx);
    StoreWrites(t, hr, idx, guarded, k);
    InRange(t, CaptureSlotKey(n, k));
    ElementsKeep(t, hr, |hr.elementRules|, StoreMeaning(t, hr, idx, guarded), n, k);
  }

  /** Rules that do not store `n` leave its captures alone, however many run. */
  lemma {:induction false} RulesKeep(rs: Ruleset, i: nat, j: nat, s: State, n: string, k: nat)
    requires i <= j <= |rs.headerRules| && PlainNames(rs) && '.' !in n
    requires CaptureSlotKey(n, k) in TablesOf(rs).slots && |TablesOf(rs).slots| <= |s.ctx.slots|
    requires forall m :: i <= m < j ==> !StoresName(rs.headerRules[m], m, n)
    requires Rules(TablesOf(rs), rs.headerRules, i, s).flow.Continue?
    ensures SameSlot(Rules(TablesOf(rs), rs.headerRules, j, s).state.ctx,
                     Rules(TablesOf(rs), rs.headerRules, i, s).state.ctx,
                     SlotOf(TablesOf(rs), CaptureSlotKey(n, k)))
    decreases j
  {
    hide RuleMeaning, CaptureSlotKey, StoresName, PlainRule, CoversRule, Dense, ScanRules, SlotOf;
    if i < j {
      var t, before := TablesOf(rs), Rules(TablesOf(rs), rs.headerRules, j - 1, s);
      RulesKeep(rs, i, j - 1, s, n, k);
      RulesTables(t, rs.headerRules, j - 1, s);
      NumberingIsDense(rs);
      ScanCovers(rs, j - 1);
      assert rs.headerRules[j - 1] in rs.headerRules;
      RuleKeeps(t, rs.headerRules[j - 1], j - 1, before.state, n, k);
    }
  }

  /** The text of group `k` in a match result. */
  function GroupText(captures: Captures, k: nat): string {
    if k < |captures| && captures[k].Some? then captures[k].value else ""
  }

  /** When a tested, unnegated pattern fires, the captures are those of its own match. */
  lemma {:induction false} FiredMatch(t: Tables, hr: HeaderRule, s: State, k: nat)
    requires Fires(t, hr, s) && IsPattern(hr.comparison) && Semantics.Tested(hr.matchValue) && !hr.matchValue.negated
    requires s.ctx.regexes == t.regexes && ScanGuard(t, hr.comparison, hr.matchValue) == t
    ensures
      var m := s.ctx.engine(EntryFor(hr.comparison, hr.matchValue.PatternText()), M.GetHeader(s.msg, hr.headerName));
      m.Some? && RtGetCapture(Matched(t, hr, s), k) == GroupText(m.value, k)
  {
    hide M.GetHeader, TypePasses, MethodPasses, PlainMatch;
    var e := EntryFor(hr.comparison, hr.matchValue.PatternText());
    RegexSteady(t, e);
    assert s.ctx.regexes[RegexOf(t, e)] == e;
  }

  /**
   A back-reference reaches its store: after rule `i` matched and stored under `n`, and
   until `n` is stored again, `$n.$k` reads group `k` of that match.
   */
  lemma {:induction false} BackReferenceReads(rs: Ruleset, i: nat, j: nat, s: State, n: string, k: nat)
    requires i < j <= |rs.headerRules| && PlainNames(rs)
    requires |TablesOf(rs).slots| <= |s.ctx.slots| && s.ctx.regexes == TablesOf(rs).regexes
    requires
      var hr := rs.headerRules[i];
      && PatternStore(hr, i, n) && Semantics.Tested(hr.matchValue) && !hr.matchValue.negated && k <= Groups(hr)
      && Fires(TablesOf(rs), hr, Rules(TablesOf(rs), rs.headerRules, i, s).state)
    requires forall m :: i < m < j ==> !StoresName(rs.headerRules[m], m, n)
    requires Rules(TablesOf(rs), rs.headerRules, j, s).flow.Continue?
    ensures
      var hr, t := rs.headerRules[i], TablesOf(rs);
      var at := Rules(t, rs.headerRules, i, s).state;
      var m := s.ctx.engine(EntryFor(hr.comparison, hr.matchValue.PatternText()), M.GetHeader(at.msg, hr.headerName));
      var ref := ValueRef(RuleRef, n + ".$" + Decimal(k), k);
      m.Some? && RefText(t, ref, Rules(t, rs.headerRules, j, s).state.ctx) == GroupText(m.value, k)
  {
    hide RuleMeaning, CaptureSlotKey, StoresName, PlainRule, Dense, ScanRules, SlotOf, PatternStore, Fires, RtGetCapture;
    hide M.GetHeader, Groups, ScanGuard, ScanHeaderAction, ScanElement, Decimal, GroupText, Semantics.Tested, StoreName;
    var t, hr := TablesOf(rs), rs.headerRules[i];
    var at := Rules(t, rs.headerRules, i, s).state;
    ContinuedBefore(t, rs.headerRules, i, j, s);
    ContinuedBefore(t, rs.headerRules, i + 1, j, s);
    assert hr in rs.headerRules;
    NumberingIsDense(rs);
    ScanCovers(rs, i);
    RulesTables(t, rs.headerRules, i, s);
    PatternStoreName(hr, i, n);
    StoreFires(t, hr, i, at, n, k);
    FiredMatch(t, hr, at, k);
    RulesTables(t, rs.headerRules, i + 1, s);
    RulesKeep(rs, i + 1, j, s, n, k);
    InRange(t, CaptureSlotKey(n, k));
    RefKey(n, k);
  }

  lemma {:induction false} PatternStoreName(hr: HeaderRule, idx: nat, n: string)
    requires PatternStore(hr, idx, n) && PlainRule(hr)
    ensures IsPattern(hr.comparison) && '.' !in n
  {
    StoreNamePlain(hr, idx);
  }

  lemma {:induction false} RefKey(n: string, k: nat)
    requires '.' !in n
    ensures RefSlotKey(ValueRef(RuleRef, n + ".$" + Decimal(k), k)) == CaptureSlotKey(n, k)
  {
    BaseNameIs(n, "$" + Decimal(k));
    assert n + ".$" + Decimal(k) == n + "." + ("$" + Decimal(k));
  }

  lemma {:induction false} ContinuedBefore(t: Tables, rules: seq<HeaderRule>, i: nat, j: nat, s: State)
    requires i <= j <= |rules| && Rules(t, rules, j, s).flow.Continue?
    ensures Rules(t, rules, i, s).flow.Continue?
  {
    if Rules(t, rules, i, s).flow.Rejected? {
      RejectedStays(t, rules, i, j, s);
    }
  }
}
