/**
 What the passes may take for equal, plain or idle: signatures against the fields they are
 made of, what a dropped rule agreed with, which patterns are plain text and what the
 simplified guard asks, and which dropped element rules could not have mattered.
 */
module OptimizerLaws {
  import opened Text
  import opened Ast
  import opened Lowering
  import opened Runtime
  import opened Semantics
  import opened Optimizer
  import RuleLaws
  import Fusion
  import FusionLimits
  import ValueParser
  import M = Message

  // ---- joined fields -------------------------------------------------------

  predicate Free(s: string, c: char) {
    forall k :: 0 <= k < |s| ==> s[k] != c
  }

  /** A field that is free of its separator is determined by the joined text. */
  lemma {:induction false} FirstField(a: string, x: string, b: string, y: string, sep: string)
    requires |sep| == 1 && Free(a, sep[0]) && Free(b, sep[0])
    ensures a + sep + x == b + sep + y <==> a == b && x == y
  {
    var s, u := a + sep + x, b + sep + y;
    if s == u {
      assert s[|a|] == sep[0] && u[|b|] == sep[0];
      assert forall k :: 0 <= k < |a| ==> s[k] == a[k];
      assert forall k :: 0 <= k < |b| ==> u[k] == b[k];
      assert |a| == |b|;
      assert a == s[..|a|] == u[..|b|] == b;
      assert x == s[|a| + 1..] == u[|b| + 1..] == y;
    }
  }

  lemma {:induction false} FreeJoin(a: string, b: string, sep: string, c: char)
    requires |sep| == 1 && sep[0] != c && Free(a, c) && Free(b, c)
    ensures Free(a + sep + b, c)
  {
  }

  // ---- signatures of element rules -----------------------------------------

  /** Enumerators are spelled apart, and without separators. */
  ghost predicate SpelledApart(sp: Spelling) {
    && (forall a, b :: sp.elementType(a) == sp.elementType(b) ==> a == b)
    && (forall a, b :: sp.elementAction(a) == sp.elementAction(b) ==> a == b)
    && (forall a, b :: sp.comparison(a) == sp.comparison(b) ==> a == b)
    && (forall a, b :: sp.headerAction(a) == sp.headerAction(b) ==> a == b)
    && (forall a, b :: sp.msgType(a) == sp.msgType(b) ==> a == b)
    && (forall a :: Plain(sp.elementType(a))) && (forall a :: Plain(sp.elementAction(a)))
    && (forall a :: Plain(sp.comparison(a))) && (forall a :: Plain(sp.headerAction(a)))
    && (forall a :: Plain(sp.msgType(a)))
  }

  /** Free of the separators of signatures. */
  predicate Plain(s: string) {
    Free(s, '|') && Free(s, ';') && Free(s, ',') && Free(s, '#')
  }

  predicate PlainElement(er: ElementRule) {
    Plain(er.matchValue.raw) && Plain(er.newValue.raw) && Plain(er.parameterName)
  }

  /** What two element rules must share to count as the same. */
  predicate SameElementRule(a: ElementRule, b: ElementRule) {
    && a.kind == b.kind && a.action == b.action && a.comparison == b.comparison
    && a.matchValue.raw == b.matchValue.raw && a.newValue.raw == b.newValue.raw && a.parameterName == b.parameterName
  }

  lemma {:induction false} Nested(a: string, b: string, c: string, d: string, e: string, f: string)
    ensures a + "|" + b + "|" + c + "|" + d + "|" + e + "|" + f ==
            a + "|" + (b + "|" + (c + "|" + (d + "|" + (e + "|" + f))))
  {
  }

  /** Element signatures agree exactly when the six fields they join do; the name and the value type play no part. */
  lemma {:induction false} ElementSigs(sp: Spelling, a: ElementRule, b: ElementRule)
    requires SpelledApart(sp) && PlainElement(a) && PlainElement(b)
    ensures ElementSig(sp, a) == ElementSig(sp, b) <==> SameElementRule(a, b)
  {
    Nested(sp.elementType(a.kind), sp.elementAction(a.action), sp.comparison(a.comparison),
           a.matchValue.raw, a.newValue.raw, a.parameterName);
    Nested(sp.elementType(b.kind), sp.elementAction(b.action), sp.comparison(b.comparison),
           b.matchValue.raw, b.newValue.raw, b.parameterName);
    assert Plain(sp.elementType(a.kind)) && Plain(sp.elementType(b.kind));
    assert Plain(sp.elementAction(a.action)) && Plain(sp.elementAction(b.action));
    assert Plain(sp.comparison(a.comparison)) && Plain(sp.comparison(b.comparison));
    SixFields(sp.elementType(a.kind), sp.elementAction(a.action), sp.comparison(a.comparison),
              a.matchValue.raw, a.newValue.raw, a.parameterName,
              sp.elementType(b.kind), sp.elementAction(b.action), sp.comparison(b.comparison),
              b.matchValue.raw, b.newValue.raw, b.parameterName);
  }

  lemma {:induction false} SixFields(
    a0: string, a1: string, a2: string, a3: string, a4: string, a5: string,
    b0: string, b1: string, b2: string, b3: string, b4: string, b5: string)
    requires Plain(a0) && Plain(a1) && Plain(a2) && Plain(a3) && Plain(a4)
    requires Plain(b0) && Plain(b1) && Plain(b2) && Plain(b3) && Plain(b4)
    ensures
      a0 + "|" + (a1 + "|" + (a2 + "|" + (a3 + "|" + (a4 + "|" + a5)))) ==
      b0 + "|" + (b1 + "|" + (b2 + "|" + (b3 + "|" + (b4 + "|" + b5)))) <==>
      a0 == b0 && a1 == b1 && a2 == b2 && a3 == b3 && a4 == b4 && a5 == b5
  {
    FirstField(a4, a5, b4, b5, "|");
    FirstField(a3, a4 + "|" + a5, b3, b4 + "|" + b5, "|");
    FirstField(a2, a3 + "|" + (a4 + "|" + a5), b2, b3 + "|" + (b4 + "|" + b5), "|");
    FirstField(a1, a2 + "|" + (a3 + "|" + (a4 + "|" + a5)), b1, b2 + "|" + (b3 + "|" + (b4 + "|" + b5)), "|");
    FirstField(a0, a1 + "|" + (a2 + "|" + (a3 + "|" + (a4 + "|" + a5))),
               b0, b1 + "|" + (b2 + "|" + (b3 + "|" + (b4 + "|" + b5))), "|");
  }

  lemma {:induction false} SigHasNoSemicolon(sp: Spelling, er: ElementRule)
    requires SpelledApart(sp) && PlainElement(er)
    ensures Free(ElementSig(sp, er), ';')
  {
    assert Plain(sp.elementType(er.kind)) && Plain(sp.elementAction(er.action)) && Plain(sp.comparison(er.comparison));
  }

  // ---- signatures of header rules ------------------------------------------

  predicate PlainElements(rules: seq<ElementRule>) {
    forall k :: 0 <= k < |rules| ==> PlainElement(rules[k])
  }

  predicate PlainTexts(texts: seq<string>) {
    forall k :: 0 <= k < |texts| ==> Plain(texts[k])
  }

  predicate PlainHeaderRule(hr: HeaderRule) {
    && Free(hr.headerName, '#') && PlainTexts(hr.methods)
    && Plain(hr.matchValue.raw) && Plain(hr.newValue.raw) && PlainElements(hr.elementRules)
  }

  predicate SameElementRules(a: seq<ElementRule>, b: seq<ElementRule>) {
    |a| == |b| && forall k :: 0 <= k < |a| ==> SameElementRule(a[k], b[k])
  }

  /** What two header rules must share to count as the same. */
  predicate SameHeaderRule(a: HeaderRule, b: HeaderRule) {
    && RuleLaws.SameLetters(a.headerName, b.headerName) && a.action == b.action && a.comparison == b.comparison
    && a.msgType == b.msgType && a.methods == b.methods
    && a.matchValue.raw == b.matchValue.raw && a.newValue.raw == b.newValue.raw
    && SameElementRules(a.elementRules, b.elementRules)
  }

  lemma {:induction false} MethodsSigs(a: seq<string>, b: seq<string>)
    requires PlainTexts(a) && PlainTexts(b)
    ensures MethodsSig(a) == MethodsSig(b) <==> a == b
    ensures Free(MethodsSig(a), '|')
  {
    if a != [] {
      assert Plain(a[0]);
      MethodsSigs(a[1..], if b == [] then [] else b[1..]);
      FreeJoin(a[0], MethodsSig(a[1..]), ",", '|');
      if b != [] {
        assert Plain(b[0]);
        FirstField(a[0], MethodsSig(a[1..]), b[0], MethodsSig(b[1..]), ",");
        assert a == b <==> a[0] == b[0] && a[1..] == b[1..] by {
          assert a == [a[0]] + a[1..] && b == [b[0]] + b[1..];
        }
      }
    }
  }

  lemma {:induction false} ElementsSigs(sp: Spelling, a: seq<ElementRule>, b: seq<ElementRule>)
    requires SpelledApart(sp) && PlainElements(a) && PlainElements(b)
    ensures ElementsSig(sp, a) == ElementsSig(sp, b) <==> SameElementRules(a, b)
  {
    hide SpelledApart, ElementSig, SameElementRule, PlainElement;
    if a != [] && b != [] {
      assert PlainElement(a[0]) && PlainElement(b[0]);
      SigHasNoSemicolon(sp, a[0]);
      SigHasNoSemicolon(sp, b[0]);
      ElementSigs(sp, a[0], b[0]);
      FirstField(ElementSig(sp, a[0]), ElementsSig(sp, a[1..]), ElementSig(sp, b[0]), ElementsSig(sp, b[1..]), ";");
      ElementsSigs(sp, a[1..], b[1..]);
      assert SameElementRules(a, b) <==> SameElementRule(a[0], b[0]) && SameElementRules(a[1..], b[1..]) by {
        HeadAndTail(a, b);
      }
    }
  }

  lemma {:induction false} HeadAndTail(a: seq<ElementRule>, b: seq<ElementRule>)
    requires a != [] && b != []
    ensures SameElementRules(a, b) <==> SameElementRule(a[0], b[0]) && SameElementRules(a[1..], b[1..])
  {
    hide SameElementRule;
    if SameElementRule(a[0], b[0]) && SameElementRules(a[1..], b[1..]) {
      forall k | 0 <= k < |a| ensures SameElementRule(a[k], b[k]) {
        if k > 0 {
          assert SameElementRule(a[1..][k - 1], b[1..][k - 1]);
        }
      }
    }
  }

  lemma {:induction false} HeaderNested(n: string, a: string, b: string, c: string, d: string, e: string, f: string, g: string)
    ensures n + "#" + a + "|" + b + "|" + c + "|" + d + "|" + e + "|" + f + "|" + g ==
            n + "#" + (a + "|" + (b + "|" + (c + "|" + (d + "|" + (e + "|" + (f + "|" + g))))))
  {
  }

  lemma {:induction false} LowerFree(s: string, c: char)
    requires Free(s, c) && !('a' <= c <= 'z')
    ensures Free(LowerAll(s), c)
  {
  }

  /** Header signatures agree exactly when the header, in either case, and the seven other fields do. */
  lemma {:induction false} HeaderSigs(sp: Spelling, a: HeaderRule, b: HeaderRule)
    requires SpelledApart(sp) && PlainHeaderRule(a) && PlainHeaderRule(b)
    ensures HeaderSig(sp, a) == HeaderSig(sp, b) <==> SameHeaderRule(a, b)
  {
    hide ElementsSig, MethodsSig, LowerAll, SameElementRules;
    RuleLaws.IgnoresCase(a.headerName, b.headerName);
    hide RuleLaws.SameLetters;
    LowerFree(a.headerName, '#');
    LowerFree(b.headerName, '#');
    MethodsSigs(a.methods, b.methods);
    MethodsSigs(b.methods, a.methods);
    ElementsSigs(sp, a.elementRules, b.elementRules);
    assert Plain(sp.headerAction(a.action)) && Plain(sp.headerAction(b.action));
    assert Plain(sp.comparison(a.comparison)) && Plain(sp.comparison(b.comparison));
    assert Plain(sp.msgType(a.msgType)) && Plain(sp.msgType(b.msgType));
    HeaderFields(LowerAll(a.headerName), sp.headerAction(a.action), sp.comparison(a.comparison), sp.msgType(a.msgType),
      MethodsSig(a.methods), a.matchValue.raw, a.newValue.raw, ElementsSig(sp, a.elementRules),
      LowerAll(b.headerName), sp.headerAction(b.action), sp.comparison(b.comparison), sp.msgType(b.msgType),
      MethodsSig(b.methods), b.matchValue.raw, b.newValue.raw, ElementsSig(sp, b.elementRules));
  }

  lemma {:induction false} HeaderFields(
    an: string, a0: string, a1: string, a2: string, a3: string, a4: string, a5: string, a6: string,
    bn: string, b0: string, b1: string, b2: string, b3: string, b4: string, b5: string, b6: string)
    requires Free(an, '#') && Plain(a0) && Plain(a1) && Plain(a2) && Free(a3, '|') && Plain(a4) && Plain(a5)
    requires Free(bn, '#') && Plain(b0) && Plain(b1) && Plain(b2) && Free(b3, '|') && Plain(b4) && Plain(b5)
    ensures
      an + "#" + a0 + "|" + a1 + "|" + a2 + "|" + a3 + "|" + a4 + "|" + a5 + "|" + a6 ==
      bn + "#" + b0 + "|" + b1 + "|" + b2 + "|" + b3 + "|" + b4 + "|" + b5 + "|" + b6 <==>
      an == bn && a0 == b0 && a1 == b1 && a2 == b2 && a3 == b3 && a4 == b4 && a5 == b5 && a6 == b6
  {
    HeaderNested(an, a0, a1, a2, a3, a4, a5, a6);
    HeaderNested(bn, b0, b1, b2, b3, b4, b5, b6);
    var a35, b35 := a3 + "|" + (a4 + "|" + (a5 + "|" + a6)), b3 + "|" + (b4 + "|" + (b5 + "|" + b6));
    FirstField(a5, a6, b5, b6, "|");
    FirstField(a4, a5 + "|" + a6, b4, b5 + "|" + b6, "|");
    FirstField(a3, a4 + "|" + (a5 + "|" + a6), b3, b4 + "|" + (b5 + "|" + b6), "|");
    FirstField(a2, a35, b2, b35, "|");
    FirstField(a1, a2 + "|" + a35, b1, b2 + "|" + b35, "|");
    FirstField(a0, a1 + "|" + (a2 + "|" + a35), b0, b1 + "|" + (b2 + "|" + b35), "|");
    FirstField(an, a0 + "|" + (a1 + "|" + (a2 + "|" + a35)), bn, b0 + "|" + (b1 + "|" + (b2 + "|" + b35)), "#");
  }

  // ---- what is dropped -----------------------------------------------------

  /** Every element of a list is kept, or an earlier one with the same key is. */
  lemma {:induction false} KeptOrSame<T(!new)>(xs: seq<T>, key: T -> Option<string>, i: nat) returns (j: nat)
    requires i < |xs|
    ensures j <= i && xs[j] in Unique(xs, key) && key(xs[j]) == key(xs[i])
    ensures key(xs[i]).None? ==> j == i
  {
    hide Keys;
    var front, last := xs[..|xs| - 1], xs[|xs| - 1];
    if i < |front| {
      j := KeptOrSame(front, key, i);
    } else if Repeats(front, last, key) {
      var k := KeyOf(front, key(last).value, key);
      j := KeptOrSame(front, key, k);
    } else {
      j := i;
    }
  }

  lemma {:induction false} KeyOf<T(!new)>(xs: seq<T>, k: string, key: T -> Option<string>) returns (i: nat)
    requires k in Keys(xs, key)
    ensures i < |xs| && key(xs[i]) == Some(k)
  {
    if key(xs[|xs| - 1]) == Some(k) {
      i := |xs| - 1;
    } else {
      i := KeyOf(xs[..|xs| - 1], k, key);
    }
  }

  /** An element rule that merging drops was already there: an earlier kept one does the same. */
  lemma {:induction false} DroppedElement(sp: Spelling, rules: seq<ElementRule>, i: nat) returns (j: nat)
    requires SpelledApart(sp) && PlainElements(rules) && i < |rules|
    ensures j <= i && rules[j] in Unique(rules, ElementKey(sp)) && SameElementRule(rules[j], rules[i])
    ensures rules[i].action.AddElement? ==> j == i
  {
    hide Unique, SpelledApart, PlainElement, ElementSig;
    j := KeptOrSame(rules, ElementKey(sp), i);
    assert PlainElement(rules[i]) && PlainElement(rules[j]);
    ElementSigs(sp, rules[j], rules[i]);
  }

  /** A header rule that deduplication drops was already there: an earlier kept one has the same fields. */
  lemma {:induction false} DroppedRule(sp: Spelling, rules: seq<HeaderRule>, i: nat) returns (j: nat)
    requires SpelledApart(sp) && i < |rules| && forall k :: 0 <= k < |rules| ==> PlainHeaderRule(rules[k])
    ensures j <= i && rules[j] in Unique(rules, HeaderKey(sp)) && (j == i || SameHeaderRule(rules[j], rules[i]))
    ensures rules[i].action.AddHeader? ==> j == i
  {
    hide Unique, SpelledApart, PlainHeaderRule, HeaderSig;
    j := KeptOrSame(rules, HeaderKey(sp), i);
    assert PlainHeaderRule(rules[i]) && PlainHeaderRule(rules[j]);
    HeaderSigs(sp, rules[j], rules[i]);
  }

  // ---- plain patterns ------------------------------------------------------

  /** None of the characters that mean something to a pattern. */
  predicate NoMeta(s: string) {
    forall k :: 0 <= k < |s| ==> Ordinary(s[k])
  }

  predicate Ordinary(c: char) {
    && c != '.' && c != '[' && c != ']' && c != '(' && c != ')' && c != '*' && c != '+'
    && c != '?' && c != '{' && c != '}' && c != '|' && c != '\\' && c != '^' && c != '$'
  }

  predicate Anchored(body: string, text: string) {
    body == text || body == "^" + text || body == text + "$" || body == "^" + text + "$"
  }

  /** A pattern is plain exactly when it is such a text, with an anchor or not at either end. */
  lemma {:induction false} PlainPatterns(body: string, text: string)
    ensures PlainPattern(body) == Some(text) <==> NoMeta(text) && Anchored(body, text)
  {
    hide NoMeta;
    MetaChars(text);
    if NoMeta(text) && Anchored(body, text) {
      assert text != "" ==> text[0] != '^' && text[|text| - 1] != '$';
      assert ("^" + text)[1..] == text && (text + "$")[..|text|] == text;
      assert ("^" + text + "$")[1..] == text + "$";
    }
    if PlainPattern(body) == Some(text) {
      Stripped(body, text);
    }
  }

  lemma {:induction false} Stripped(body: string, text: string)
    requires PlainPattern(body) == Some(text)
    ensures Anchored(body, text) && NothingSpecial(text)
  {
    var front := if body != "" && body[0] == '^' then body[1..] else body;
    var whole := if front != "" && front[|front| - 1] == '$' then front[..|front| - 1] else front;
    assert whole == text;
    assert body == front || body == "^" + front;
    if front != "" && front[|front| - 1] == '$' {
      assert front == front[..|front| - 1] + "$";
      assert "^" + (text + "$") == "^" + text + "$";
    }
  }

  lemma {:induction false} MetaChars(s: string)
    ensures NoMeta(s) <==> NothingSpecial(s)
  {
    hide Ordinary;
    forall k | 0 <= k < |s|
      ensures s[k] in REGEX_META <==> !Ordinary(s[k])
    {
      MetaChar(s[k]);
    }
  }

  lemma {:induction false} MetaChar(c: char)
    ensures c in REGEX_META <==> !Ordinary(c)
  {
    var m := REGEX_META;
    assert m[0] == '.' && m[1] == '[' && m[2] == ']' && m[3] == '(' && m[4] == ')' && m[5] == '*' && m[6] == '+';
    assert m[7] == '?' && m[8] == '{' && m[9] == '}' && m[10] == '|' && m[11] == '\\' && m[12] == '^' && m[13] == '$';
  }

  /** The simplified guard: equality with the plain text, whatever the pattern's anchors and sign were. */
  lemma {:induction false} SimplifiedGuard(
    t: Tables, cmp: ComparisonType, mv: Value, subject: string, ctx: Context, text: string)
    requires cmp.PatternRule? && !mv.refExpression && (forall k :: 0 <= k < |mv.segments| ==> mv.segments[k].Literal?)
    requires mv.raw != "" && text != "" && NoMeta(text) && Anchored(mv.raw, text)
    ensures Guard(t, SimplerComparison(cmp, mv), AnyValue, SimplerValue(cmp, mv), subject, ctx) == (ctx, subject == text)
  {
    hide NoMeta, Anchored, PlainPattern, Guard;
    PlainPatterns(mv.raw, text);
    RuleLaws.TextGuard(t, CaseSensitive, SimplerValue(cmp, mv), text, subject, ctx);
  }

  /** Every other guard is left as it is. */
  lemma {:induction false} OtherGuards(cmp: ComparisonType, mv: Value)
    requires
      || !cmp.PatternRule? || mv.refExpression || (exists k :: 0 <= k < |mv.segments| && mv.segments[k].Reference?)
      || !(exists text :: text != "" && NoMeta(text) && Anchored(mv.raw, text))
    ensures SimplerComparison(cmp, mv) == cmp && SimplerValue(cmp, mv) == mv
  {
    hide NoMeta, Anchored, PlainPattern;
    if exists k :: 0 <= k < |mv.segments| && mv.segments[k].Reference? {
      var k :| 0 <= k < |mv.segments| && mv.segments[k].Reference?;
      assert mv.segments[k] in mv.segments;
    }
    if PlainPattern(mv.raw).Some? {
      PlainPatterns(mv.raw, PlainPattern(mv.raw).value);
    }
  }

  // ---- dead and idle rules -------------------------------------------------

  /** Dropped as dead: rules without an action, and rules that name no header but act on one. */
  lemma {:induction false} DeadRules(hr: HeaderRule)
    ensures Dead(hr) <==>
      hr.action == NoHeaderAction || (hr.headerName == "" && hr.action !in {SipManipHeader, LogHeader, RejectHeader})
  {
  }

  /** An idle element rule changes nothing and numbers nothing. */
  lemma {:induction false} IdleDoesNothing(t: Tables, hr: HeaderRule, er: ElementRule, s: State)
    requires Idle(er)
    ensures ElementMeaning(t, hr, er, s) == Outcome(s, Continue) && ScanElement(t, hr, er) == t
  {
  }

  lemma {:induction false} SameElementsUpTo(t: Tables, a: HeaderRule, b: HeaderRule, n: nat, s: State)
    requires n <= |a.elementRules| && n <= |b.elementRules| && a.elementRules[..n] == b.elementRules[..n]
    requires a.(elementRules := b.elementRules) == b
    ensures Elements(t, a, n, s) == Elements(t, b, n, s)
    ensures ScanElements(t, a, n) == ScanElements(t, b, n)
  {
    hide ElementMeaning, ScanElement;
    if n > 0 {
      assert a.elementRules[n - 1] == a.elementRules[..n][n - 1] == b.elementRules[n - 1];
      assert a.elementRules[..n - 1] == a.elementRules[..n][..n - 1] == b.elementRules[..n - 1];
      SameElementsUpTo(t, a, b, n - 1, s);
      SameHost(t, a, b, a.elementRules[n - 1], Elements(t, a, n - 1, s).state);
      SameHostScan(ScanElements(t, a, n - 1), a, b, a.elementRules[n - 1]);
    }
  }

  /** An element rule looks at nothing of its header rule but the header and the name. */
  lemma {:induction false} SameHost(t: Tables, a: HeaderRule, b: HeaderRule, er: ElementRule, s: State)
    requires a.headerName == b.headerName && a.name == b.name
    ensures ElementMeaning(t, a, er, s) == ElementMeaning(t, b, er, s)
  {
    hide Guard, ValueText, MessageOr, M.GetHeader, WriteElement, SlotOf;
  }

  lemma {:induction false} SameHostScan(t: Tables, a: HeaderRule, b: HeaderRule, er: ElementRule)
    requires a.headerName == b.headerName && a.name == b.name
    ensures ScanElement(t, a, er) == ScanElement(t, b, er)
  {
    hide ScanGuard, ScanValue;
  }

  /** The element rules that are not idle do what all of them do. */
  lemma {:induction false} ActiveDoAll(t: Tables, hr: HeaderRule, s: State)
    ensures
      Elements(t, Cleaned(hr), |Active(hr.elementRules)|, s) == Elements(t, hr, |hr.elementRules|, s) &&
      ScanElements(t, Cleaned(hr), |Active(hr.elementRules)|) == ScanElements(t, hr, |hr.elementRules|)
    decreases |hr.elementRules|
  {
    hide ElementMeaning, ScanElement, Idle;
    var rules := hr.elementRules;
    if rules != [] {
      var last := rules[|rules| - 1];
      var front := hr.(elementRules := rules[..|rules| - 1]);
      var kept, before := Active(front.elementRules), Elements(t, front, |front.elementRules|, s);
      ActiveDoAll(t, front, s);
      SameElementsUpTo(t, front, hr, |rules| - 1, s);
      if Idle(last) {
        IdleDoesNothing(t, hr, last, before.state);
        IdleDoesNothing(ScanElements(t, hr, |rules| - 1), hr, last, s);
      } else {
        assert Active(rules) == kept + [last];
        assert Cleaned(hr).elementRules[..|kept|] == kept;
        SameElementsUpTo(t, Cleaned(front), Cleaned(hr), |kept|, s);
        SameHost(t, Cleaned(hr), hr, last, before.state);
        SameHostScan(ScanElements(t, hr, |rules| - 1), Cleaned(hr), hr, last);
      }
    }
  }

  /**
   Dropping the idle element rules of a header rule changes neither meaning nor numbering,
   unless it drops all of them and thereby lets the rule set its header.
   */
  lemma {:induction false} CleaningPreserves(t: Tables, hr: HeaderRule, idx: nat, s: State)
    requires SetsHeader(Cleaned(hr)) == SetsHeader(hr)
    ensures RuleMeaning(t, Cleaned(hr), idx, s) == RuleMeaning(t, hr, idx, s)
    ensures ScanRule(t, Cleaned(hr), idx) == ScanRule(t, hr, idx)
  {
    hide Guard, Elements, ScanElements, ScanGuard, M.GetHeader, TypePasses, MethodPasses, Active, SetsHeader;
    hide ScanValue, ScanStore, ValueText, MessageOr, StoreMeaning;
    var c := Cleaned(hr);
    var g := s.(ctx := Guard(t, hr.comparison, AnyValue, hr.matchValue, M.GetHeader(s.msg, hr.headerName), s.ctx).0);
    SameAction(t, c, hr, idx, g);
    SameActionScan(ScanGuard(t, hr.comparison, hr.matchValue), c, hr, idx);
    SameFilters(c, hr, s.msg);
    ActiveDoAll(t, hr, HeaderAct(t, hr, idx, g).state);
    ActiveDoAll(ScanHeaderAction(ScanGuard(t, hr.comparison, hr.matchValue), hr, idx), hr, s);
  }

  lemma {:induction false} SameFilters(a: HeaderRule, b: HeaderRule, m: M.Message)
    requires a.(elementRules := b.elementRules) == b
    ensures TypePasses(a, m) == TypePasses(b, m) && MethodPasses(a, m) == MethodPasses(b, m)
  {
  }

  lemma {:induction false} SameAction(t: Tables, a: HeaderRule, b: HeaderRule, idx: nat, s: State)
    requires a.(elementRules := b.elementRules) == b && SetsHeader(a) == SetsHeader(b)
    ensures HeaderAct(t, a, idx, s) == HeaderAct(t, b, idx, s)
  {
    hide ValueText, MessageOr, M.GetHeader, StoreCaptures, SlotOf, SetsHeader;
  }

  lemma {:induction false} SameActionScan(t: Tables, a: HeaderRule, b: HeaderRule, idx: nat)
    requires a.(elementRules := b.elementRules) == b && SetsHeader(a) == SetsHeader(b)
    ensures ScanHeaderAction(t, a, idx) == ScanHeaderAction(t, b, idx)
  {
    hide ScanValue, ScanCaptures, SetsHeader;
  }

  /** When dropping idle element rules matters: exactly when it drops all of them from a rule with a new-value. */
  lemma {:induction false} CleaningSets(hr: HeaderRule)
    ensures SetsHeader(Cleaned(hr)) != SetsHeader(hr) <==>
      hr.newValue.raw != "" && hr.elementRules != [] && forall k :: 0 <= k < |hr.elementRules| ==> Idle(hr.elementRules[k])
  {
    hide Idle;
    ActiveEmpty(hr.elementRules);
  }

  lemma {:induction false} ActiveEmpty(rules: seq<ElementRule>)
    ensures Active(rules) == [] <==> forall k :: 0 <= k < |rules| ==> Idle(rules[k])
  {
    hide Idle;
    if rules != [] {
      ActiveEmpty(rules[..|rules| - 1]);
      assert forall k :: 0 <= k < |rules| - 1 ==> rules[..|rules| - 1][k] == rules[k];
    }
  }

  /** An element rule that is dropped as idle. */
  function NoOp(): ElementRule {
    ElementRule("", "", NoElementType, NoElementAction, AnyValue, CaseSensitive, FusionLimits.NO_VALUE, FusionLimits.NO_VALUE)
  }

  /** Then it does matter: a rule held back by idle element rules alone sets its header once they are gone. */
  lemma {:induction false} CleaningCanSet(t: Tables, h: string, y: string)
    requires y != "" && |h| + 2 * |y| <= 65536
    ensures
      var hr := FusionLimits.Manipulates("", h, FusionLimits.NO_VALUE, FusionLimits.Quote(y), [NoOp()]);
      var s := FusionLimits.Given([]);
      && RuleMeaning(t, hr, 0, s).state.msg.headers == []
      && RuleMeaning(t, Cleaned(hr), 0, s).state.msg.headers == [M.Header(h, y, false)]
  {
    hide RuleMeaning, RtSetHeader, Elements, ScanRule, ScanElements, Fusion.GuardOf, ScanGuard;
    var hr := FusionLimits.Manipulates("", h, FusionLimits.NO_VALUE, FusionLimits.Quote(y), [NoOp()]);
    var s := FusionLimits.Given([]);
    ActiveEmpty(hr.elementRules);
    FusionLimits.SetsOrIdles(t, Cleaned(hr), y, 0, s);
    FusionLimits.HeaderAdded(s, h, y);
    FusionLimits.JustElement(t, hr, 0, s);
    IdleDoesNothing(t, hr, NoOp(), s);
  }

  // ---- fusing --------------------------------------------------------------

  /** Two rules are fused exactly when both manipulate one header under one guard and one filter. */
  lemma {:induction false} FusesExactly(a: HeaderRule, b: HeaderRule)
    ensures CanFuse(a, b) <==>
      && a.action == Manipulate && b.action == Manipulate && RuleLaws.SameLetters(a.headerName, b.headerName)
      && a.matchValue.raw == b.matchValue.raw && a.comparison == b.comparison
      && a.msgType == b.msgType && a.methods == b.methods
  {
    RuleLaws.IgnoresCase(a.headerName, b.headerName);
    hide RuleLaws.SameLetters, LowerAll;
  }
}
