/**
 What guards and filters of a rule ask, told by comparison type, match-value type and the
 characters compared, and not through the choices the back ends share.
 */
module RuleLaws {
  import opened Text
  import opened Ast
  import opened Lowering
  import opened Runtime
  import opened Semantics
  import IpMatchers
  import ValueParser
  import M = Message

  // ---- letters -------------------------------------------------------------

  /** The same character, or the same ASCII letter in the other case. */
  predicate SameLetter(a: char, b: char) {
    || a == b
    || ('a' <= a <= 'z' && b as int == a as int - 'a' as int + 'A' as int)
    || ('A' <= a <= 'Z' && b as int == a as int - 'A' as int + 'a' as int)
  }

  predicate SameLetters(a: string, b: string) {
    |a| == |b| && forall k :: 0 <= k < |a| ==> SameLetter(a[k], b[k])
  }

  /** Comparing without case is comparing letter by letter. */
  lemma {:induction false} IgnoresCase(a: string, b: string)
    ensures IEquals(a, b) <==> SameLetters(a, b)
    ensures LowerAll(a) == LowerAll(b) <==> SameLetters(a, b)
  {
    if |a| == |b| {
      forall k | 0 <= k < |a|
        ensures Lower(a[k]) == Lower(b[k]) <==> SameLetter(a[k], b[k])
        ensures LowerAll(a)[k] == Lower(a[k]) && LowerAll(b)[k] == Lower(b[k])
      {
      }
      if SameLetters(a, b) {
        assert LowerAll(a) == LowerAll(b);
      }
    }
  }

  // ---- domain names --------------------------------------------------------

  /** A name that is not empty and does not end with a dot. */
  predicate Host(s: string) {
    s != "" && s[|s| - 1] != '.'
  }

  /** One trailing dot on either side makes no difference, but a dot alone is a name; the empty name matches nothing. */
  lemma {:induction false} DomainNames(a: string, b: string)
    ensures Host(a) && Host(b) ==>
      && (IpMatchers.MatchFqdn(a, b) <==> SameLetters(a, b))
      && (IpMatchers.MatchFqdn(a + ".", b) <==> SameLetters(a, b))
      && (IpMatchers.MatchFqdn(a, b + ".") <==> SameLetters(a, b))
      && (IpMatchers.MatchFqdn(a + ".", b + ".") <==> SameLetters(a, b))
    ensures !IpMatchers.MatchFqdn("", b) && !IpMatchers.MatchFqdn(a, "")
    ensures IpMatchers.MatchFqdn(".", ".")
    ensures Host(a) ==> !IpMatchers.MatchFqdn(".", a) && !IpMatchers.MatchFqdn(a + "..", a)
  {
    hide IEquals;
    IgnoresCase(a, b);
    assert (a + ".")[..|a|] == a && (b + ".")[..|b|] == b && (a + "..")[..|a| + 1] == a + ".";
    IgnoresCase(".", a);
    IgnoresCase(".", ".");
    IgnoresCase(a + ".", a);
    if Host(a) && |a| == 1 {
      assert !SameLetter('.', a[0]);
    }
  }

  // ---- guards --------------------------------------------------------------

  /** A match-value that is the text `p`, negated or not. */
  predicate Says(mv: Value, p: string) {
    mv.raw != "" && mv.segments == [Literal(p)] && !mv.refExpression
  }

  lemma {:induction false} PatternSaid(mv: Value, p: string)
    requires Says(mv, p)
    ensures Tested(mv) && mv.PatternText() == p
  {
    assert JoinLiterals(mv.segments[1..]) == "" && p + "" == p;
  }

  /** A match-value as it is written: an optional '!', then text that does not start with '$'. */
  lemma {:induction false} WrittenGuard(p: string)
    requires p != "" && p[0] != '$'
    ensures p[0] != '!' ==>
      Says(ValueParser.ParsedValue(p, ValueParser.MatchMode, false), p) &&
      !ValueParser.ParsedValue(p, ValueParser.MatchMode, false).negated
    ensures
      Says(ValueParser.ParsedValue("!" + p, ValueParser.MatchMode, false), p) &&
      ValueParser.ParsedValue("!" + p, ValueParser.MatchMode, false).negated
  {
    assert ("!" + p)[1..] == p && ("!" + p)[0] == '!';
  }

  /** A match-value that refers to something is not tested: the guard passes. */
  lemma {:induction false} ReferenceGuard(
    t: Tables, cmp: ComparisonType, mvt: MatchValType, mv: Value, subject: string, ctx: Context)
    requires mv.raw == "" || (exists k :: 0 <= k < |mv.segments| && mv.segments[k].Reference?)
    ensures Guard(t, cmp, mvt, mv, subject, ctx) == (ctx, true)
  {
    if mv.raw != "" {
      var k :| 0 <= k < |mv.segments| && mv.segments[k].Reference?;
      assert mv.segments[k] in mv.segments;
    }
  }

  /** Whole-text comparisons, for header guards and for element guards without a value type. */
  lemma {:induction false} TextGuard(t: Tables, cmp: ComparisonType, mv: Value, p: string, subject: string, ctx: Context)
    requires Says(mv, p)
    ensures cmp.CaseSensitive? || cmp.Boolean? || cmp.ReferCaseSensitive? ==>
      Guard(t, cmp, AnyValue, mv, subject, ctx) == (ctx, (subject == p) != mv.negated)
    ensures cmp.CaseInsensitive? || cmp.ReferCaseInsensitive? ==>
      Guard(t, cmp, AnyValue, mv, subject, ctx) == (ctx, SameLetters(subject, p) != mv.negated)
  {
    hide IEquals, RegexOf;
    PatternSaid(mv, p);
    IgnoresCase(subject, p);
  }

  /** Patterns: one match by the engine without flags, whose captures are recorded either way. */
  lemma {:induction false} PatternGuard(
    t: Tables, mvt: MatchValType, mv: Value, p: string, subject: string, ctx: Context)
    requires Says(mv, p) && ctx.regexes == t.regexes && RegexEntry(p, 0) in t.regexes
    ensures
      var m := ctx.engine(RegexEntry(p, 0), subject);
      Guard(t, PatternRule, mvt, mv, subject, ctx) ==
      (ctx.(hasMatch := m.Some?, lastMatch := if m.Some? then m.value else []), m.Some? != mv.negated)
  {
    PatternSaid(mv, p);
    assert RegexIndex(t.regexes, RegexEntry(p, 0)) < |t.regexes|;
  }

  /** Addresses: a '/' asks for a subnet, else a '-' for a range, else for one address. */
  lemma {:induction false} AddressGuard(t: Tables, cmp: ComparisonType, mv: Value, p: string, subject: string, ctx: Context)
    requires Says(mv, p) && !cmp.PatternRule?
    ensures Guard(t, cmp, Ip, mv, subject, ctx) ==
      (ctx,
       (if '/' in p then IpMatchers.InSubnet(subject, p)
        else if '-' in p then IpMatchers.InRange(subject, p)
        else IpMatchers.MatchIp(subject, p)) != mv.negated)
  {
    hide IpMatchers.InSubnet, IpMatchers.InRange, IpMatchers.MatchIp, RegexOf;
    PatternSaid(mv, p);
  }

  lemma {:induction false} DomainGuard(t: Tables, cmp: ComparisonType, mv: Value, p: string, subject: string, ctx: Context)
    requires Says(mv, p) && !cmp.PatternRule?
    ensures Guard(t, cmp, Fqdn, mv, subject, ctx) == (ctx, IpMatchers.MatchFqdn(subject, p) != mv.negated)
  {
    hide IpMatchers.MatchFqdn, RegexOf;
    PatternSaid(mv, p);
  }

  // ---- filters and captures ------------------------------------------------

  /** A rule runs on messages of its type, with one of its methods if it names any, in either case. */
  lemma {:induction false} Filters(hr: HeaderRule, m: M.Message)
    ensures TypePasses(hr, m) <==>
      match hr.msgType
      case Request => m.start.isRequest
      case Reply => !m.start.isRequest
      case _ => true
    ensures MethodPasses(hr, m) <==>
      hr.methods == [] || exists k :: 0 <= k < |hr.methods| && SameLetters(m.start.verb, hr.methods[k])
  {
    hide IEquals, SameLetters;
    forall k | 0 <= k < |hr.methods|
      ensures IEquals(m.start.verb, hr.methods[k]) == SameLetters(m.start.verb, hr.methods[k])
    {
      IgnoresCase(m.start.verb, hr.methods[k]);
    }
  }

  /** The value of a literal new-value is its text, whatever its segments. */
  lemma {:induction false} LiteralValue(t: Tables, text: string, ctx: Context)
    ensures ValueText(t, ValueParser.ParsedValue(text, ValueParser.LiteralMode, false), ctx) == text
    ensures ValueText(t, ValueParser.ParsedValue(text, ValueParser.NewMode, true), ctx) == text
  {
    if text != "" {
      var v := ValueParser.ParsedValue(text, ValueParser.LiteralMode, false);
      assert JoinLiterals(v.segments[1..]) == "" && text + "" == text;
    }
  }

  /** A value is the concatenation of what its segments say. */
  lemma {:induction false} ValuesConcatenate(t: Tables, a: seq<Segment>, b: seq<Segment>, ctx: Context)
    ensures SegmentsText(t, a + b, ctx) == SegmentsText(t, a, ctx) + SegmentsText(t, b, ctx)
  {
    if b == [] {
      assert a + b == a;
      assert SegmentsText(t, a, ctx) + "" == SegmentsText(t, a, ctx);
    } else {
      assert (a + b)[..|a + b| - 1] == a + b[..|b| - 1];
      ValuesConcatenate(t, a, b[..|b| - 1], ctx);
    }
  }

  /** Literal text is one with its segments, so that both ways of evaluating a value agree. */
  lemma {:induction false} LiteralsJoin(t: Tables, segments: seq<Segment>, ctx: Context)
    requires forall k :: 0 <= k < |segments| ==> segments[k].Literal?
    ensures SegmentsText(t, segments, ctx) == JoinLiterals(segments)
  {
    if segments != [] {
      LiteralsJoin(t, segments[1..], ctx);
      ValuesConcatenate(t, segments[..1], segments[1..], ctx);
      assert segments == segments[..1] + segments[1..];
      assert segments[..1][..0] == [] && segments[..1][0] == segments[0];
      assert SegmentsText(t, segments[..1], ctx) == "" + segments[0].text == segments[0].text;
    }
  }
}
