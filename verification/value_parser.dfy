/**
 Parsing of match-values and new-values into segments: literal text, built-in variables,
 captures and back-references to stored rules, with `+` as concatenation.
 */
module ValueParser {
  import opened Text
  import opened Ast
  import opened Lowering

  datatype ValueMode = LiteralMode | MatchMode | NewMode

  predicate IsIdentStart(c: char) {
    IsAlpha(c) || c == '_'
  }

  predicate IsIdentCont(c: char) {
    IsAlpha(c) || IsDigit(c) || c == '_'
  }

  predicate IsAllUpper(s: string) {
    (exists k :: 0 <= k < |s| && IsAlpha(s[k])) && forall k :: 0 <= k < |s| ==> !('a' <= s[k] <= 'z')
  }

  /** Length of the identifier characters `s` starts with. */
  function IdentLen(s: string): (n: nat)
    ensures n <= |s| && (forall k :: 0 <= k < n ==> IsIdentCont(s[k])) && (n < |s| ==> !IsIdentCont(s[n]))
  {
    if s == "" || !IsIdentCont(s[0]) then 0 else 1 + IdentLen(s[1..])
  }

  /** Length of the digits `s` starts with. */
  function DigitLen(s: string): (n: nat)
    ensures n <= |s| && AllDigits(s[..n]) && (n < |s| ==> !IsDigit(s[n]))
  {
    if s == "" || !IsDigit(s[0]) then 0
    else
      assert s[..1 + DigitLen(s[1..])] == [s[0]] + s[1..][..DigitLen(s[1..])];
      1 + DigitLen(s[1..])
  }

  /** A reference and the length of the text it was read from. */
  datatype Parsed = Parsed(ref: ValueRef, len: nat)

  datatype Chained = Chained(path: string, capture: int, len: nat)

  predicate StartsDigit(s: string) {
    s != "" && IsDigit(s[0])
  }

  function Dotted(path: string, ident: string): string {
    (if path == "" then "" else path + ".") + ident
  }

  /** A chain `name.$name...`, which a `.$` and digits end with a capture index. */
  function Chain(s: string, path: string): (c: Chained)
    ensures c.len <= |s|
    decreases |s|
  {
    if s == "" || !IsIdentStart(s[0]) then Chained(path, -1, 0)
    else ChainFrom(s, Dotted(path, s[..IdentLen(s)]), IdentLen(s))
  }

  /** The chain with an identifier of length `n` read into `path`. */
  function ChainFrom(s: string, path: string, n: nat): (c: Chained)
    requires 0 < n <= |s|
    ensures c.len <= |s|
    decreases |s|, 0
  {
    if !(n + 1 < |s| && s[n] == '.' && s[n + 1] == '$') then Chained(path, -1, n)
    else if StartsDigit(s[n + 2..]) then
      var d := DigitLen(s[n + 2..]);
      Chained(path + ".$" + s[n + 2..n + 2 + d], DecimalValue(s[n + 2..n + 2 + d]), n + 2 + d)
    else
      var rest := Chain(s[n + 2..], path);
      Chained(rest.path, rest.capture, n + 2 + rest.len)
  }

  /** An undotted name all in upper case is a built-in variable. */
  function NamedRef(c: Chained): ValueRef {
    ValueRef(if '.' !in c.path && IsAllUpper(c.path) then Variable else RuleRef, c.path, c.capture)
  }

  /** The reference at the start of `s`, whose first character is the '$'. */
  function ParseRef(s: string): (p: Parsed)
    requires s != ""
    ensures 0 < p.len <= |s|
  {
    if |s| > 1 && s[1] == '{' then
      var n := IndexOf(s[2..], '}');
      Parsed(ValueRef(Variable, s[2..2 + n], -1), if 2 + n < |s| then 3 + n else 2 + n)
    else if StartsDigit(s[1..]) then
      var n := DigitLen(s[1..]);
      Parsed(ValueRef(Capture, s[1..1 + n], DecimalValue(s[1..1 + n])), 1 + n)
    else
      Parsed(NamedRef(Chain(s[1..], "")), 1 + Chain(s[1..], "").len)
  }

  /** Whether a '$' here begins a reference rather than standing for itself. */
  predicate StartsRef(s: string) {
    |s| > 1 && s[0] == '$' && (IsIdentStart(s[1]) || IsDigit(s[1]) || s[1] == '{')
  }

  function Flush(literal: string): seq<Segment> {
    if literal == "" then [] else [Literal(literal)]
  }

  /** The segments of `text`, after the pending literal `literal`. */
  function Interpolated(text: string, literal: string): seq<Segment>
    decreases |text|
  {
    if text == "" then Flush(literal)
    else if StartsRef(text) then
      Flush(literal) + ([Reference(ParseRef(text).ref)] + Interpolated(text[ParseRef(text).len..], ""))
    else Interpolated(text[1..], literal + [text[0]])
  }

  function AllInterpolated(parts: seq<string>): seq<Segment> {
    if parts == [] then [] else Interpolated(parts[0], "") + AllInterpolated(parts[1..])
  }

  /** The segments of a new-value: its `+` operands, each interpolated. */
  function NewSegments(raw: string): seq<Segment> {
    AllInterpolated(Split(raw, '+'))
  }

  function Unnegated(raw: string): string {
    if raw != "" && raw[0] == '!' then raw[1..] else raw
  }

  function ParsedValue(raw: string, mode: ValueMode, quoted: bool): Value {
    if quoted || mode == LiteralMode then Value(raw, Flush(raw), false, false)
    else if mode == MatchMode then
      var body := Unnegated(raw);
      var isRef := body != "" && body[0] == '$';
      Value(raw, if isRef then Interpolated(body, "") else Flush(body), raw != body, isRef)
    else Value(raw, NewSegments(raw), false, false)
  }

  // ---- the parser ----------------------------------------------------------

  method ScanIdent(text: string, start: nat) returns (ident: string, i: nat)
    requires start <= |text|
    ensures i == start + IdentLen(text[start..]) && i <= |text| && ident == text[start..i]
  {
    ident := "";
    i := start;
    while i < |text| && IsIdentCont(text[i])
      invariant start <= i <= |text| && ident == text[start..i]
      invariant IdentLen(text[start..]) == i - start + IdentLen(text[i..])
    {
      assert text[i..][1..] == text[i + 1..];
      ident := ident + [text[i]];
      i := i + 1;
    }
  }

  method ScanDigits(text: string, start: nat) returns (num: string, i: nat)
    requires start <= |text|
    ensures i == start + DigitLen(text[start..]) && i <= |text| && num == text[start..i]
  {
    num := "";
    i := start;
    while i < |text| && IsDigit(text[i])
      invariant start <= i <= |text| && num == text[start..i]
      invariant DigitLen(text[start..]) == i - start + DigitLen(text[i..])
    {
      assert text[i..][1..] == text[i + 1..];
      num := num + [text[i]];
      i := i + 1;
    }
  }

  method ScanBraced(text: string, start: nat) returns (name: string, i: nat)
    requires start <= |text|
    ensures i == start + IndexOf(text[start..], '}') && i <= |text| && name == text[start..i]
  {
    name := "";
    i := start;
    while i < |text| && text[i] != '}'
      invariant start <= i <= |text| && name == text[start..i]
      invariant IndexOf(text[start..], '}') == i - start + IndexOf(text[i..], '}')
    {
      assert text[i..][1..] == text[i + 1..];
      name := name + [text[i]];
      i := i + 1;
    }
  }

  /** The dotted chain that starts at `start`. */
  method ScanChain(text: string, start: nat) returns (path: string, capture: int, i: nat)
    requires start <= |text|
    ensures var c := Chain(text[start..], ""); path == c.path && capture == c.capture && i == start + c.len
  {
    hide Chain, ChainFrom, IdentLen, DigitLen, DecimalValue, IsIdentStart;
    path, capture, i := "", -1, start;
    ghost var whole := Chain(text[start..], "");
    while i < |text| && IsIdentStart(text[i])
      invariant start <= i <= |text| && capture == -1
      invariant whole == Onward(i - start, Chain(text[i..], path))
      decreases |text| - i
    {
      ghost var at := i;
      ChainEnter(text, i, path);
      var ident;
      ident, i := ScanIdent(text, i);
      if path != "" {
        path := path + ".";
      }
      path := path + ident;
      ChainStep(text, at, i, path);
      if i + 1 < |text| && text[i] == '.' && text[i + 1] == '$' {
        i := i + 2;
        if i < |text| && IsDigit(text[i]) {
          var num;
          num, i := ScanDigits(text, i);
          capture := DecimalValue(num);
          path := path + ".$" + num;
          return;
        }
      } else {
        return;
      }
    }
    ChainEnds(text, i, path);
  }

  function Onward(n: nat, rest: Chained): Chained {
    Chained(rest.path, rest.capture, n + rest.len)
  }

  /** Entering a chain at an identifier. */
  lemma {:induction false} ChainEnter(text: string, i: nat, path: string)
    requires i < |text| && IsIdentStart(text[i])
    ensures
      var j := i + IdentLen(text[i..]);
      i < j <= |text| && Chain(text[i..], path) == ChainFrom(text[i..], Dotted(path, text[i..j]), j - i)
  {
    hide ChainFrom;
    assert text[i..][..IdentLen(text[i..])] == text[i..i + IdentLen(text[i..])];
  }

  lemma {:induction false} ChainEnds(text: string, i: nat, path: string)
    requires i <= |text| && (i < |text| ==> !IsIdentStart(text[i]))
    ensures Chain(text[i..], path) == Chained(path, -1, 0)
  {
  }

  /** What follows the identifier that ends at `j` decides how the chain goes on. */
  lemma {:induction false} ChainStep(text: string, i: nat, j: nat, path: string)
    requires i < j <= |text|
    ensures
      var more := j + 1 < |text| && text[j] == '.' && text[j + 1] == '$';
      ChainFrom(text[i..], path, j - i) ==
      if !more then Chained(path, -1, j - i)
      else if j + 2 < |text| && IsDigit(text[j + 2]) then
        var d := DigitLen(text[j + 2..]);
        Chained(path + ".$" + text[j + 2..j + 2 + d], DecimalValue(text[j + 2..j + 2 + d]), j - i + 2 + d)
      else
        var rest := Chain(text[j + 2..], path);
        Chained(rest.path, rest.capture, j - i + 2 + rest.len)
  {
    var s, n := text[i..], j - i;
    if j + 1 < |text| && text[j] == '.' && text[j + 1] == '$' {
      assert s[n + 2..] == text[j + 2..];
      var d := DigitLen(text[j + 2..]);
      assert s[n + 2..n + 2 + d] == text[j + 2..j + 2 + d];
    }
  }

  method ParseRefAt(text: string, start: nat) returns (ref: ValueRef, i: nat)
    requires start < |text|
    ensures ref == ParseRef(text[start..]).ref && i == start + ParseRef(text[start..]).len
  {
    hide Chain, IdentLen, DigitLen, IndexOf;
    i := start + 1;
    ghost var s := text[start..];
    assert s[1..] == text[i..];
    if i < |text| && text[i] == '{' {
      assert s[2..] == text[i + 1..];
      var name;
      name, i := ScanBraced(text, i + 1);
      if i < |text| { i := i + 1; }
      return ValueRef(Variable, name, -1), i;
    }
    if i < |text| && IsDigit(text[i]) {
      var num;
      num, i := ScanDigits(text, i);
      assert s[1..][..|num|] == num && s[1..1 + |num|] == num;
      return ValueRef(Capture, num, DecimalValue(num)), i;
    }
    var path, capture;
    path, capture, i := ScanChain(text, i);
    var kind := if '.' !in path && IsAllUpper(path) then Variable else RuleRef;
    return ValueRef(kind, path, capture), i;
  }

  method Interpolate(text: string) returns (out: seq<Segment>)
    ensures out == Interpolated(text, "")
  {
    hide ParseRef;
    out := [];
    var literal := "";
    var i := 0;
    assert text[0..] == text;
    while i < |text|
      invariant i <= |text| && out + Interpolated(text[i..], literal) == Interpolated(text, "")
    {
      assert text[i..][1..] == text[i + 1..];
      if text[i] == '$' && i + 1 < |text| &&
         (IsIdentStart(text[i + 1]) || IsDigit(text[i + 1]) || text[i + 1] == '{') {
        ghost var at := i;
        if literal != "" {
          out := out + [Literal(literal)];
          literal := "";
        }
        var ref;
        ref, i := ParseRefAt(text, i);
        out := out + [Reference(ref)];
        assert text[at..][ParseRef(text[at..]).len..] == text[i..];
      } else {
        literal := literal + [text[i]];
        i := i + 1;
      }
    }
    if literal != "" {
      out := out + [Literal(literal)];
    }
  }

  method SplitConcat(s: string) returns (parts: seq<string>)
    ensures parts == Split(s, '+')
  {
    parts := [];
    var cur := "";
    assert "" + s[0..] == s;
    for i := 0 to |s|
      invariant '+' !in cur && parts + Split(cur + s[i..], '+') == Split(s, '+')
    {
      SplitFront(cur, s[i..]);
      if s[i] == '+' {
        parts := parts + [cur];
        cur := "";
        assert "" + s[i + 1..] == s[i..][1..];
      } else {
        assert (cur + [s[i]]) + s[i + 1..] == cur + s[i..];
        cur := cur + [s[i]];
      }
    }
    assert cur + s[|s|..] == cur;
    SplitWhole(cur);
    parts := parts + [cur];
  }

  lemma {:induction false} IndexAfter(cur: string, rest: string, c: char)
    requires c !in cur
    ensures IndexOf(cur + rest, c) == |cur| + IndexOf(rest, c)
  {
    if cur == "" {
      assert cur + rest == rest;
    } else {
      assert (cur + rest)[1..] == cur[1..] + rest;
      IndexAfter(cur[1..], rest, c);
    }
  }

  lemma {:induction false} SplitFront(cur: string, rest: string)
    requires '+' !in cur && rest != ""
    ensures rest[0] == '+' ==> Split(cur + rest, '+') == [cur] + Split(rest[1..], '+')
  {
    if rest[0] == '+' {
      IndexAfter(cur, rest, '+');
      assert (cur + rest)[|cur| + 1..] == rest[1..];
    }
  }

  lemma {:induction false} SplitWhole(s: string)
    requires '+' !in s
    ensures Split(s, '+') == [s]
  {
  }

  /** Parses a raw value in a mode; quoted text is taken verbatim. */
  method Parse(raw: string, mode: ValueMode, quoted: bool) returns (v: Value)
    ensures v == ParsedValue(raw, mode, quoted)
  {
    hide Interpolated, Split;
    if quoted || mode == LiteralMode {
      return Value(raw, if raw != "" then [Literal(raw)] else [], false, false);
    }
    var segments: seq<Segment> := [];
    if mode == MatchMode {
      var body := raw;
      var negated, isRef := false, false;
      if body != "" && body[0] == '!' {
        negated := true;
        body := body[1..];
      }
      if body != "" && body[0] == '$' {
        isRef := true;
        segments := Interpolate(body);
      } else if body != "" {
        segments := [Literal(body)];
      }
      return Value(raw, segments, negated, isRef);
    }
    var parts := SplitConcat(raw);
    for i := 0 to |parts|
      invariant segments + AllInterpolated(parts[i..]) == NewSegments(raw)
    {
      assert parts[i..][1..] == parts[i + 1..];
      InterpolatedEmpty();
      if parts[i] != "" {
        var more := Interpolate(parts[i]);
        segments := segments + more;
      }
    }
    return Value(raw, segments, false, false);
  }

  lemma {:induction false} InterpolatedEmpty()
    ensures Interpolated("", "") == []
  {
  }

  // ---- laws ----------------------------------------------------------------

  lemma {:induction false} SplitConcatenation(a: string, b: string)
    ensures Split(a + "+" + b, '+') == Split(a, '+') + Split(b, '+')
    decreases |a|
  {
    hide Split;
    var i := IndexOf(a, '+');
    var whole := a + "+" + b;
    if i == |a| {
      SplitWhole(a);
      SplitFront(a, "+" + b);
      assert whole == a + ("+" + b) && ("+" + b)[1..] == b;
    } else {
      SplitFront(a[..i], a[i..]);
      SplitFront(a[..i], a[i..] + "+" + b);
      SplitConcatenation(a[i + 1..], b);
      assert a == a[..i] + a[i..] && a[i..][1..] == a[i + 1..];
      assert whole == a[..i] + (a[i..] + "+" + b) && (a[i..] + "+" + b)[1..] == a[i + 1..] + "+" + b;
    }
  }

  lemma {:induction false} AllInterpolatedAppend(a: seq<string>, b: seq<string>)
    ensures AllInterpolated(a + b) == AllInterpolated(a) + AllInterpolated(b)
  {
    hide Interpolated;
    if a == [] {
      assert a + b == b;
    } else {
      assert (a + b)[1..] == a[1..] + b;
      AllInterpolatedAppend(a[1..], b);
    }
  }

  /** `+` concatenates: the segments of `a+b` are those of `a`, then those of `b`, for all texts. */
  lemma {:induction false} PlusConcatenates(a: string, b: string)
    ensures NewSegments(a + "+" + b) == NewSegments(a) + NewSegments(b)
  {
    hide Split, AllInterpolated;
    SplitConcatenation(a, b);
    AllInterpolatedAppend(Split(a, '+'), Split(b, '+'));
  }

  /** Segments that can be written back: literals without '$' or '+', never adjacent, and braced variables. */
  predicate Renderable(segments: seq<Segment>) {
    && (forall k :: 0 <= k < |segments| ==> PlainSegment(segments[k]))
    && (forall k :: 0 < k < |segments| ==> segments[k - 1].Reference? || segments[k].Reference?)
  }

  predicate PlainSegment(seg: Segment) {
    match seg
    case Literal(text) => text != "" && '$' !in text && '+' !in text
    case Reference(ref) => ref.kind == Variable && ref.captureIndex == -1 && '}' !in ref.name && '+' !in ref.name
  }

  function RenderSegment(seg: Segment): string {
    match seg
    case Literal(text) => text
    case Reference(ref) => "${" + ref.name + "}"
  }

  function Render(segments: seq<Segment>): string {
    if segments == [] then "" else RenderSegment(segments[0]) + Render(segments[1..])
  }

  lemma {:induction false} LiteralRun(text: string, rest: string, literal: string)
    requires '$' !in text
    ensures Interpolated(text + rest, literal) == Interpolated(rest, literal + text)
  {
    hide ParseRef;
    if text == "" {
      assert text + rest == rest && literal + text == literal;
    } else {
      assert (text + rest)[1..] == text[1..] + rest;
      LiteralRun(text[1..], rest, literal + [text[0]]);
      assert literal + [text[0]] + text[1..] == literal + text;
      assert (text + rest)[0] == text[0] && text[0] in text;
    }
  }

  lemma {:induction false} BracedRef(name: string, rest: string, literal: string)
    requires '}' !in name
    ensures
      Interpolated("${" + name + "}" + rest, literal) ==
      Flush(literal) + ([Reference(ValueRef(Variable, name, -1))] + Interpolated(rest, ""))
  {
    hide Chain, DigitLen, Flush;
    var text := "${" + name + "}" + rest;
    assert text[2..] == name + ("}" + rest);
    IndexAfter(name, "}" + rest, '}');
    assert text[2..2 + |name|] == name;
    assert text[3 + |name|..] == rest;
  }

  /** One rendered segment: a literal waits to be flushed, a reference is read at once. */
  lemma {:induction false} RenderStep(seg: Segment, rest: string, literal: string)
    requires PlainSegment(seg) && (literal == "" || seg.Reference?)
    ensures
      Interpolated(RenderSegment(seg) + rest, literal) ==
      if seg.Literal? then Interpolated(rest, seg.text) else Flush(literal) + ([seg] + Interpolated(rest, ""))
  {
    hide Interpolated;
    match seg
    case Literal(text) =>
      LiteralRun(text, rest, literal);
      assert literal + text == text;
    case Reference(ref) =>
      BracedRef(ref.name, rest, literal);
      assert ref == ValueRef(Variable, ref.name, -1);
  }

  lemma {:induction false} RenderRuns(segments: seq<Segment>, literal: string)
    requires Renderable(segments) && (literal == "" || segments == [] || segments[0].Reference?)
    ensures Interpolated(Render(segments), literal) == Flush(literal) + segments
    decreases |segments|
  {
    hide Interpolated, RenderSegment;
    if segments == [] {
      InterpolatedNone(literal);
    } else {
      var rest := segments[1..];
      assert PlainSegment(segments[0]);
      assert segments == [segments[0]] + rest;
      RenderStep(segments[0], Render(rest), literal);
      RenderRuns(rest, if segments[0].Literal? then segments[0].text else "");
    }
  }

  lemma {:induction false} InterpolatedNone(literal: string)
    ensures Interpolated("", literal) == Flush(literal)
  {
  }

  lemma {:induction false} RenderHasNoPlus(segments: seq<Segment>)
    requires Renderable(segments)
    ensures '+' !in Render(segments)
  {
    if segments != [] {
      assert PlainSegment(segments[0]);
      RenderHasNoPlus(segments[1..]);
    }
  }

  /** Rendering a list of literals and braced variables and parsing it gives the list back. */
  lemma {:induction false} RenderParse(segments: seq<Segment>)
    requires Renderable(segments)
    ensures NewSegments(Render(segments)) == segments
  {
    hide Interpolated, Render, Split;
    RenderHasNoPlus(segments);
    SplitWhole(Render(segments));
    RenderRuns(segments, "");
    assert AllInterpolated([Render(segments)]) == Interpolated(Render(segments), "") + AllInterpolated([]);
  }

  predicate IsIdent(s: string) {
    s != "" && IsIdentStart(s[0]) && forall k :: 0 <= k < |s| ==> IsIdentCont(s[k])
  }

  lemma {:induction false} IdentLenIs(s: string, n: nat)
    requires n <= |s| && (forall k :: 0 <= k < n ==> IsIdentCont(s[k])) && (n < |s| ==> !IsIdentCont(s[n]))
    ensures IdentLen(s) == n
  {
  }

  lemma {:induction false} DigitLenIs(s: string)
    requires AllDigits(s)
    ensures DigitLen(s) == |s|
  {
  }

  lemma {:induction false} IdentHasNoDot(s: string)
    requires IsIdent(s)
    ensures '.' !in s && '+' !in s && '$' !in s
  {
  }

  /** `$name.$k` is a back-reference to group `k` of the rule stored as `name`. */
  lemma {:induction false} BackReference(name: string, k: nat)
    requires IsIdent(name)
    ensures
      var ref := ValueRef(RuleRef, name + ".$" + Decimal(k), k);
      NewSegments("$" + name + ".$" + Decimal(k)) == [Reference(ref)] && RefSlotKey(ref) == CaptureSlotKey(name, k)
  {
    hide Decimal, Interpolated, Split, Chain;
    var num := Decimal(k);
    var raw := "$" + name + ".$" + num;
    var ref := ValueRef(RuleRef, name + ".$" + num, k);
    IdentHasNoDot(name);
    ChainBackReference(name, num);
    DecimalRoundTrip(k);
    SplitWhole(raw);
    assert raw[1..] == name + ".$" + num;
    assert '.' in ref.name by { assert ref.name[|name|] == '.'; }
    assert AllInterpolated([raw]) == Interpolated(raw, "") + AllInterpolated([]);
    WholeRef(raw, ref);
    BaseNameIs(name, "$" + num);
    assert ref.name == name + "." + ("$" + num);
  }

  lemma {:induction false} BaseNameIs(name: string, rest: string)
    requires '.' !in name
    ensures RefBaseName(name + "." + rest) == name
  {
    assert name + "." + rest == name + ("." + rest);
    IndexAfter(name, "." + rest, '.');
  }

  /** A text that is one reference and nothing else. */
  lemma {:induction false} WholeRef(raw: string, ref: ValueRef)
    requires StartsRef(raw) && ParseRef(raw) == Parsed(ref, |raw|)
    ensures Interpolated(raw, "") == [Reference(ref)]
  {
    hide ParseRef;
    assert raw[|raw|..] == "";
  }

  lemma {:induction false} ChainBackReference(name: string, num: string)
    requires IsIdent(name) && num != "" && AllDigits(num)
    ensures Chain(name + ".$" + num, "") ==
            Chained(name + ".$" + num, DecimalValue(num), |name| + 2 + |num|)
  {
    hide DecimalValue, ChainFrom;
    var s, n := name + ".$" + num, |name|;
    IdentLenIs(s, n);
    assert s[..n] == name;
    assert s[n + 2..] == num;
    assert "" + name == name;
    ChainFromDigits(s, name, n, num);
  }

  lemma {:induction false} ChainFromDigits(s: string, path: string, n: nat, num: string)
    requires 0 < n && n + 2 < |s| && s[n] == '.' && s[n + 1] == '$' && s[n + 2..] == num && AllDigits(num)
    ensures ChainFrom(s, path, n) == Chained(path + ".$" + num, DecimalValue(num), n + 2 + |num|)
  {
    hide DecimalValue;
    DigitLenIs(num);
    assert s[n + 2..n + 2 + |num|] == num;
  }

  /** A plain match-value: the pattern is the text without its leading '!', which negates it. */
  lemma {:induction false} PlainMatchValue(raw: string)
    requires Unnegated(raw) == "" || Unnegated(raw)[0] != '$'
    ensures
      var v := ParsedValue(raw, MatchMode, false);
      && v.IsPureLiteral() && v.IsRegexLiteral() && v.PatternText() == Unnegated(raw)
      && (v.negated <==> raw != "" && raw[0] == '!') && (v.Empty() <==> raw == "")
  {
    var body := Unnegated(raw);
    var v := ParsedValue(raw, MatchMode, false);
    assert raw != "" && raw[0] == '!' ==> |body| < |raw|;
    if body != "" {
      assert v.segments[1..] == [];
      assert JoinLiterals(v.segments) == body + JoinLiterals(v.segments[1..]);
    }
  }
}
