/**
 Which reference a `$` begins, told from the characters of the text: built-in variables,
 captures, plain and dotted rule references, wherever they stand in a value; and what the
 references read when a rule is applied.
 */
module ValueNames {
  import opened Text
  import opened Ast
  import opened Lowering
  import opened Runtime
  import opened Semantics
  import opened ValueParser
  import opened CaptureSlots
  import M = Message

  predicate NameStart(c: char) {
    'a' <= c <= 'z' || 'A' <= c <= 'Z' || c == '_'
  }

  predicate Digit(c: char) {
    '0' <= c <= '9'
  }

  predicate NameChar(c: char) {
    NameStart(c) || Digit(c)
  }

  predicate Name(s: string) {
    s != "" && NameStart(s[0]) && forall k :: 0 <= k < |s| ==> NameChar(s[k])
  }

  predicate Digits(s: string) {
    s != "" && forall k :: 0 <= k < |s| ==> Digit(s[k])
  }

  /** At least one capital letter and no small one: what a built-in variable looks like. */
  predicate Capitals(s: string) {
    (exists k :: 0 <= k < |s| && 'A' <= s[k] <= 'Z') && forall k :: 0 <= k < |s| ==> !('a' <= s[k] <= 'z')
  }

  /** A name ends before this text: no further character of it, no `.$` that continues a chain. */
  predicate EndsName(rest: string) {
    rest == "" || (!NameChar(rest[0]) && !(|rest| > 1 && rest[0] == '.' && rest[1] == '$'))
  }

  predicate EndsNumber(rest: string) {
    rest == "" || !Digit(rest[0])
  }

  function Pending(literal: string): seq<Segment> {
    if literal == "" then [] else [Literal(literal)]
  }

  // ---- characters ----------------------------------------------------------

  lemma {:induction false} IdentChars(c: char)
    ensures IsIdentStart(c) <==> NameStart(c)
    ensures IsIdentCont(c) <==> NameChar(c)
  {
  }

  lemma {:induction false} CapitalsAreUpper(s: string)
    requires Name(s)
    ensures IsAllUpper(s) <==> Capitals(s)
    ensures '.' !in s
  {
    if IsAllUpper(s) {
      var k :| 0 <= k < |s| && IsAlpha(s[k]);
      assert 'A' <= s[k] <= 'Z';
    }
    if Capitals(s) {
      var k :| 0 <= k < |s| && 'A' <= s[k] <= 'Z';
      assert IsAlpha(s[k]);
    }
    assert forall k :: 0 <= k < |s| ==> NameChar(s[k]);
  }

  /** The name that starts a text is read up to where it ends. */
  lemma {:induction false} NameLen(name: string, rest: string)
    requires Name(name) && (rest == "" || !NameChar(rest[0]))
    ensures IdentLen(name + rest) == |name| && (name + rest)[..|name|] == name
    ensures IsIdentStart((name + rest)[0])
  {
    var s := name + rest;
    forall k | 0 <= k < |name|
      ensures IsIdentCont(s[k])
    {
      assert NameChar(name[k]);
      IdentChars(name[k]);
    }
    if rest != "" {
      IdentChars(rest[0]);
    }
    IdentChars(name[0]);
    IdentLenIs(s, |name|);
  }

  lemma {:induction false} NumberLen(num: string, rest: string)
    requires Digits(num) && EndsNumber(rest)
    ensures DigitLen(num + rest) == |num| && (num + rest)[..|num|] == num
    ensures StartsDigit(num + rest)
    decreases |num|
  {
    var s := num + rest;
    assert s[0] == num[0] && Digit(num[0]);
    if |num| > 1 {
      NumberLen(num[1..], rest);
      assert s[1..] == num[1..] + rest;
    } else {
      assert s[1..] == rest;
    }
  }

  /** A reference where it stands: the literal before it is finished, the text after it goes on. */
  lemma {:induction false} RefHere(ref: ValueRef, text: string, rest: string, literal: string)
    requires text != "" && text[0] == '$' && StartsRef(text + rest) && ParseRef(text + rest) == Parsed(ref, |text|)
    ensures Interpolated(text + rest, literal) == Pending(literal) + ([Reference(ref)] + Interpolated(rest, ""))
  {
    hide ParseRef, StartsRef;
    assert (text + rest)[|text|..] == rest;
  }

  // ---- names ---------------------------------------------------------------

  lemma {:induction false} ChainOfOne(name: string, rest: string)
    requires Name(name) && EndsName(rest)
    ensures Chain(name + rest, "") == Chained(name, -1, |name|)
  {
    hide IdentLen, IsIdentStart;
    NameLen(name, rest);
    assert "" + name == name;
    assert rest != "" ==> (name + rest)[|name|] == rest[0];
    assert |rest| > 1 ==> (name + rest)[|name| + 1] == rest[1];
  }

  lemma {:induction false} NotBraced(name: string, rest: string)
    requires Name(name)
    ensures var s := "$" + name + rest;
      StartsRef(s) && s[1] != '{' && !StartsDigit(s[1..]) && s[1..] == name + rest
  {
    var s := "$" + name + rest;
    assert s[1] == name[0];
    IdentChars(name[0]);
  }

  /** `$NAME` is a built-in variable, `$name` the whole match of a stored rule, anywhere in a text. */
  lemma {:induction false} NamedReference(name: string, rest: string, literal: string)
    requires Name(name) && EndsName(rest)
    ensures
      Interpolated("$" + name + rest, literal) ==
      Pending(literal) +
      ([Reference(ValueRef(if Capitals(name) then Variable else RuleRef, name, -1))] + Interpolated(rest, ""))
  {
    hide Chain, StartsRef, StartsDigit, Interpolated, IsAllUpper;
    NotBraced(name, rest);
    ChainOfOne(name, rest);
    CapitalsAreUpper(name);
    RefHere(ValueRef(if Capitals(name) then Variable else RuleRef, name, -1), "$" + name, rest, literal);
  }

  /** `$k` is a capture of the last match, anywhere in a text. */
  lemma {:induction false} CaptureReference(num: string, rest: string, literal: string)
    requires Digits(num) && EndsNumber(rest)
    ensures
      Interpolated("$" + num + rest, literal) ==
      Pending(literal) + ([Reference(ValueRef(Capture, num, DecimalValue(num)))] + Interpolated(rest, ""))
  {
    hide DigitLen, DecimalValue, Interpolated;
    var s := "$" + num + rest;
    assert s[1..] == num + rest && s[1] == num[0] && Digit(num[0]);
    NumberLen(num, rest);
    assert s[1..1 + |num|] == num;
    RefHere(ValueRef(Capture, num, DecimalValue(num)), "$" + num, rest, literal);
  }

  /** A `$` before anything else stands for itself. */
  lemma {:induction false} PlainDollar(rest: string, literal: string)
    requires rest == "" || !(NameChar(rest[0]) || rest[0] == '{')
    ensures Interpolated("$" + rest, literal) == Interpolated(rest, literal + "$")
  {
    hide ParseRef;
    var s := "$" + rest;
    assert s[1..] == rest;
    if rest != "" {
      assert s[1] == rest[0];
      IdentChars(rest[0]);
    }
  }

  /** A brace that is never closed takes the rest of the text for the variable's name. */
  lemma {:induction false} OpenBrace(name: string, literal: string)
    requires '}' !in name
    ensures Interpolated("${" + name, literal) == Pending(literal) + [Reference(ValueRef(Variable, name, -1))]
  {
    hide Chain, DigitLen;
    var s := "${" + name;
    assert s[2..] == name;
    FirstIs(name, '}', |name|);
    assert s[2..2 + |name|] == name && s[|s|..] == "";
  }

  // ---- chains --------------------------------------------------------------

  /** `name.$more` reads on in the chain. */
  lemma {:induction false} ChainOn(name: string, more: string, path: string)
    requires Name(name) && (more == "" || !Digit(more[0]))
    ensures
      var next := Chain(more, (if path == "" then "" else path + ".") + name);
      Chain(name + (".$" + more), path) == Chained(next.path, next.capture, |name| + 2 + next.len)
  {
    hide IdentLen, IsIdentStart;
    var s := name + (".$" + more);
    NameLen(name, ".$" + more);
    assert s[|name|] == '.' && s[|name| + 1] == '$' && s[|name| + 2..] == more;
  }

  /** `name.$num` ends a chain with a capture index. */
  lemma {:induction false} ChainEndsIn(name: string, num: string, rest: string, path: string)
    requires Name(name) && Digits(num) && EndsNumber(rest)
    ensures
      Chain(name + (".$" + (num + rest)), path) ==
      Chained((if path == "" then "" else path + ".") + name + ".$" + num, DecimalValue(num), |name| + 2 + |num|)
  {
    hide IdentLen, IsIdentStart, DigitLen, DecimalValue;
    var s := name + (".$" + (num + rest));
    NameLen(name, ".$" + (num + rest));
    NumberLen(num, rest);
    assert s[|name|] == '.' && s[|name| + 1] == '$' && s[|name| + 2..] == num + rest;
    assert s[|name| + 2..|name| + 2 + |num|] == num;
  }

  /** `$rule.$element.$k` names a capture of the rule; the slot goes by the rule. */
  lemma {:induction false} ElementCapture(rule: string, element: string, num: string, rest: string, literal: string)
    requires Name(rule) && Name(element) && Digits(num) && EndsNumber(rest)
    ensures
      var ref := ValueRef(RuleRef, rule + "." + element + ".$" + num, DecimalValue(num));
      && Interpolated("$" + rule + (".$" + (element + (".$" + num))) + rest, literal) ==
         Pending(literal) + ([Reference(ref)] + Interpolated(rest, ""))
      && RefSlotKey(ref) == CaptureSlotKey(rule, DecimalValue(num))
  {
    hide Chain, StartsRef, StartsDigit, Interpolated, DecimalValue;
    var tail := element + (".$" + (num + rest));
    var text := "$" + rule + (".$" + (element + (".$" + num)));
    assert text + rest == "$" + rule + (".$" + tail);
    NotBraced(rule, ".$" + tail);
    assert element[0] == tail[0] && NameStart(element[0]);
    ChainOn(rule, tail, "");
    assert "" + rule == rule;
    ChainEndsIn(element, num, rest, rule);
    CapitalsAreUpper(rule);
    var path := rule + "." + element + ".$" + num;
    assert path[|rule|] == '.';
    BaseNameIs(rule, element + ".$" + num);
    assert path == rule + "." + (element + ".$" + num);
    RefHere(ValueRef(RuleRef, path, DecimalValue(num)), text, rest, literal);
  }

  // ---- whole values --------------------------------------------------------

  lemma {:induction false} OneSegment(raw: string, seg: Segment)
    requires '+' !in raw && Interpolated(raw, "") == [seg]
    ensures NewSegments(raw) == [seg]
  {
    hide Interpolated;
    SplitWhole(raw);
    assert AllInterpolated([raw]) == Interpolated(raw, "") + AllInterpolated([]);
  }

  /** The new-value `$NAME` or `$name`. */
  lemma {:induction false} NameAlone(name: string)
    requires Name(name)
    ensures NewSegments("$" + name) == [Reference(ValueRef(if Capitals(name) then Variable else RuleRef, name, -1))]
    ensures RefSlotKey(ValueRef(RuleRef, name, -1)) == name
  {
    hide NewSegments;
    NamedReference(name, "", "");
    NothingLeft("$" + name);
    assert forall k :: 0 <= k < |name| ==> NameChar(name[k]);
    FirstIs(name, '.', |name|);
    assert name[..|name|] == name;
    OneSegment("$" + name, Reference(ValueRef(if Capitals(name) then Variable else RuleRef, name, -1)));
  }

  /** The new-value `$k`. */
  lemma {:induction false} CaptureAlone(k: nat)
    ensures NewSegments("$" + Decimal(k)) == [Reference(ValueRef(Capture, Decimal(k), k))]
  {
    hide NewSegments, Decimal, DecimalValue;
    DecimalRoundTrip(k);
    assert forall i :: 0 <= i < |Decimal(k)| ==> Decimal(k)[i] in Decimal(k);
    CaptureReference(Decimal(k), "", "");
    NothingLeft("$" + Decimal(k));
    OneSegment("$" + Decimal(k), Reference(ValueRef(Capture, Decimal(k), k)));
  }

  lemma {:induction false} NothingLeft(s: string)
    ensures s + "" == s && Interpolated("", "") == [] && Pending("") == []
  {
  }

  // ---- what references read ------------------------------------------------

  /** The built-in variables and their places in the context. */
  predicate BuiltIn(name: string, id: nat) {
    || (name == "LOCAL_IP" && id == 1) || (name == "REMOTE_IP" && id == 2)
    || (name == "LOCAL_PORT" && id == 3) || (name == "REMOTE_PORT" && id == 4)
    || (name == "TRUNK_GROUP" && id == 5) || (name == "REALM" && id == 6)
    || (name == "INTERFACE" && id == 7) || (name == "METHOD" && id == 8)
    || (name == "RURI_USER" && id == 9) || (name == "RURI_HOST" && id == 10)
    || (name == "TO_USER" && id == 11) || (name == "TO_HOST" && id == 12)
    || (name == "FROM_USER" && id == 13) || (name == "FROM_HOST" && id == 14)
  }

  /** `s` spells the capitals of `name`, in either case. */
  predicate Spells(s: string, name: string) {
    |s| == |name| && forall k :: 0 <= k < |s| ==>
      s[k] == name[k] || ('a' <= s[k] <= 'z' && s[k] as int - 'a' as int == name[k] as int - 'A' as int)
  }

  lemma {:induction false} SpelledUpper(s: string, name: string)
    requires Spells(s, name) && forall k :: 0 <= k < |name| ==> !('a' <= name[k] <= 'z')
    ensures seq(|s|, i requires 0 <= i < |s| => Upper(s[i])) == name
  {
  }

  lemma {:induction false} UpperSpells(s: string)
    ensures Spells(s, seq(|s|, i requires 0 <= i < |s| => Upper(s[i])))
  {
  }

  lemma {:induction false} IndexOfName(upper: string, from: nat, id: nat)
    requires from <= id < VAR_MAX && VARIABLE_NAMES[id] == upper
    requires forall k :: from <= k < id ==> VARIABLE_NAMES[k] != upper
    ensures VariableIndex(upper, from) == id
    decreases id - from
  {
    if from < id {
      IndexOfName(upper, from + 1, id);
    }
  }

  lemma {:induction false} NamesDiffer(j: nat, k: nat)
    requires j < k < VAR_MAX
    ensures VARIABLE_NAMES[j] != VARIABLE_NAMES[k]
  {
    var a, b := VARIABLE_NAMES[j], VARIABLE_NAMES[k];
    if |a| == |b| {
      assert a[0] != b[0] || a[|a| - 1] != b[|b| - 1];
    }
  }

  /** A word of capitals and underscores. */
  predicate CapitalWord(s: string) {
    s != "" && 'A' <= s[0] <= 'Z' && forall k :: 0 <= k < |s| ==> 'A' <= s[k] <= 'Z' || s[k] == '_'
  }

  lemma {:induction false} BuiltInWord(name: string, id: nat)
    requires BuiltIn(name, id)
    ensures CapitalWord(name) && 0 < id < VAR_MAX && VARIABLE_NAMES[id] == name
  {
    hide CapitalWord;
    CapitalNames(id);
  }

  lemma {:induction false} CapitalNames(id: nat)
    requires 0 < id < VAR_MAX
    ensures CapitalWord(VARIABLE_NAMES[id])
  {
    var name := VARIABLE_NAMES[id];
    forall k | 0 <= k < |name|
      ensures 'A' <= name[k] <= 'Z' || name[k] == '_'
    {
    }
  }

  lemma {:induction false} CapitalWordName(s: string)
    requires CapitalWord(s)
    ensures Name(s) && Capitals(s)
  {
  }

  /** A built-in variable, in any case, reads its place in the context. */
  lemma {:induction false} VariableReads(t: Tables, s: string, name: string, id: nat, ctx: Context)
    requires BuiltIn(name, id) && Spells(s, name) && |ctx.vars| > 14
    ensures RefText(t, ValueRef(Variable, s, -1), ctx) == ctx.vars[id]
  {
    hide BuiltIn;
    BuiltInWord(name, id);
    SpelledUpper(s, name);
    forall k | 1 <= k < id
      ensures VARIABLE_NAMES[k] != name
    {
      NamesDiffer(k, id);
    }
    IndexOfName(name, 1, id);
  }

  lemma {:induction false} NoIndex(upper: string, from: nat)
    requires from >= 1 && forall k :: from <= k < VAR_MAX ==> VARIABLE_NAMES[k] != upper
    ensures VariableIndex(upper, from) == 0
    decreases VAR_MAX - from
  {
    if from < VAR_MAX {
      NoIndex(upper, from + 1);
    }
  }

  /** Any other variable name reads as the empty string. */
  lemma {:induction false} UnknownReads(t: Tables, s: string, ctx: Context)
    requires forall name, id :: BuiltIn(name, id) ==> !Spells(s, name)
    ensures RefText(t, ValueRef(Variable, s, -1), ctx) == ""
  {
    var upper := seq(|s|, i requires 0 <= i < |s| => Upper(s[i]));
    forall k | 1 <= k < VAR_MAX
      ensures VARIABLE_NAMES[k] != upper
    {
      assert BuiltIn(VARIABLE_NAMES[k], k);
      if VARIABLE_NAMES[k] == upper {
        UpperSpells(s);
      }
    }
    NoIndex(upper, 1);
  }

  lemma {:induction false} SingleText(t: Tables, raw: string, ref: ValueRef, ctx: Context)
    requires raw != "" && NewSegments(raw) == [Reference(ref)]
    ensures ValueText(t, ParsedValue(raw, NewMode, false), ctx) == RefText(t, ref, ctx)
  {
    hide NewSegments, RefText;
    var v := ParsedValue(raw, NewMode, false);
    assert v.segments[0].Reference? && v.segments[0] in v.segments && !v.IsPureLiteral();
    assert v.segments[..0] == [] && SegmentsText(t, [], ctx) == "" && "" + RefText(t, ref, ctx) == RefText(t, ref, ctx);
  }

  /** The new-value `$NAME`, applied. */
  lemma {:induction false} VariableValue(t: Tables, name: string, id: nat, ctx: Context)
    requires BuiltIn(name, id) && |ctx.vars| > 14
    ensures ValueText(t, ParsedValue("$" + name, NewMode, false), ctx) == ctx.vars[id]
  {
    hide NewSegments, RefText, ParsedValue, ValueText;
    BuiltInWord(name, id);
    CapitalWordName(name);
    NameAlone(name);
    SingleText(t, "$" + name, ValueRef(Variable, name, -1), ctx);
    VariableReads(t, name, name, id, ctx);
  }

  /** The new-value `$k`, applied: group `k` of the last match. */
  lemma {:induction false} CaptureValue(t: Tables, k: nat, ctx: Context)
    ensures ValueText(t, ParsedValue("$" + Decimal(k), NewMode, false), ctx) ==
            if ctx.hasMatch && k < |ctx.lastMatch| && ctx.lastMatch[k].Some? then ctx.lastMatch[k].value else ""
  {
    hide NewSegments, ParsedValue, ValueText;
    CaptureAlone(k);
    SingleText(t, "$" + Decimal(k), ValueRef(Capture, Decimal(k), k), ctx);
  }

  /**
   The new-values `$n` and `$n.$k`, applied: after rule `i` matched and stored under `n`, and
   until `n` is stored again, they read the whole match and group `k` of it.
   */
  lemma {:induction false} StoredValues(rs: Ruleset, i: nat, j: nat, s: State, n: string, k: nat)
    requires i < j <= |rs.headerRules| && PlainNames(rs) && Name(n)
    requires |TablesOf(rs).slots| <= |s.ctx.slots| && s.ctx.regexes == TablesOf(rs).regexes
    requires
      var hr := rs.headerRules[i];
      && PatternStore(hr, i, n) && Semantics.Tested(hr.matchValue) && !hr.matchValue.negated && k <= Groups(hr)
      && Fires(TablesOf(rs), hr, Rules(TablesOf(rs), rs.headerRules, i, s).state)
    requires forall m :: i < m < j ==> !StoresName(rs.headerRules[m], m, n)
    requires Rules(TablesOf(rs), rs.headerRules, j, s).flow.Continue?
    ensures
      var hr, t := rs.headerRules[i], TablesOf(rs);
      var at, ctx := Rules(t, rs.headerRules, i, s).state, Rules(t, rs.headerRules, j, s).state.ctx;
      var m := s.ctx.engine(EntryFor(hr.comparison, hr.matchValue.PatternText()), M.GetHeader(at.msg, hr.headerName));
      && m.Some?
      && ValueText(t, ParsedValue("$" + n + ".$" + Decimal(k), NewMode, false), ctx) == GroupText(m.value, k)
      && (!Capitals(n) ==> ValueText(t, ParsedValue("$" + n, NewMode, false), ctx) == GroupText(m.value, 0))
  {
    hide NewSegments, ParsedValue, ValueText, Rules, TablesOf, PatternStore, Fires, StoresName, GroupText, Decimal, Groups;
    hide PlainRule, EntryFor, M.GetHeader, Semantics.Tested, RefSlotKey;
    var t, ctx := TablesOf(rs), Rules(TablesOf(rs), rs.headerRules, j, s).state.ctx;
    BackReferenceReads(rs, i, j, s, n, k);
    BackReferenceReads(rs, i, j, s, n, 0);
    NamesAreIdents(n);
    BackReference(n, k);
    BackReference(n, 0);
    NameAlone(n);
    SingleText(t, "$" + n + ".$" + Decimal(k), ValueRef(RuleRef, n + ".$" + Decimal(k), k), ctx);
    if !Capitals(n) {
      SingleText(t, "$" + n, ValueRef(RuleRef, n, -1), ctx);
      WholeKey(n);
    }
  }

  lemma {:induction false} WholeKey(n: string)
    ensures CaptureSlotKey(n, 0) == n
  {
  }

  lemma {:induction false} NamesAreIdents(n: string)
    requires Name(n)
    ensures IsIdent(n)
  {
    IdentChars(n[0]);
    forall k | 0 <= k < |n|
      ensures IsIdentCont(n[k])
    {
      assert NameChar(n[k]);
      IdentChars(n[k]);
    }
  }
}
