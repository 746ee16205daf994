/**
 Writing the display name of a value that has a '<': the text before the bracket is
 trimmed, and what stands between quotes is read without them. Which texts read back
 is decided exactly.
 */
module UriDisplay {
  import opened Text
  import opened Lowering
  import opened Uri
  import opened UriLaws

  predicate Quoted(s: string) {
    |s| >= 2 && s[0] == '"' && s[|s| - 1] == '"'
  }

  function Unquote(s: string): string {
    if Quoted(s) then s[1..|s| - 1] else s
  }

  function InQuotes(s: string): string {
    "\"" + s + "\""
  }

  /** The text before '<' once its display name is overwritten. */
  function Redisplayed(before: string, text: string): string {
    var d := DisplaySpan(before);
    before[..d.lo] + text + before[d.hi..]
  }

  /** Any text fits between quotes; without them it must be trimmed and not look quoted. */
  predicate DisplaySafe(before: string, text: string) {
    Avoids(text, '<') && (Quoted(Trim(before, false)) || (Trimmed(text, false) && !Quoted(text)))
  }

  predicate Blanks(s: string) {
    forall k :: 0 <= k < |s| ==> IsBlank(s[k])
  }

  /** A text is its padding around its trimmed core. */
  lemma {:induction false} Padding(s: string) returns (lead: string, trail: string)
    ensures Blanks(lead) && Blanks(trail) && s == lead + Trim(s, false) + trail
    ensures |lead| == LeadLen(s) && |lead| + KeepLen(s[LeadLen(s)..], false) == |lead + Trim(s, false)|
  {
    hide LeadLen, KeepLen;
    var n := LeadLen(s);
    var m := KeepLen(s[n..], false);
    lead, trail := s[..n], s[n..][m..];
    TwoCuts(s, n, m);
  }

  lemma {:induction false} TwoCuts(s: string, n: nat, m: nat)
    requires n <= |s| && m <= |s| - n
    ensures s == s[..n] + s[n..][..m] + s[n..][m..]
  {
    assert s == s[..n] + s[n..];
    assert s[n..] == s[n..][..m] + s[n..][m..];
  }

  /** The display name is the trimmed text, without its quotes. */
  lemma {:induction false} DisplayIsUnquoted(before: string)
    ensures DisplayText(before) == Unquote(Trim(before, false))
  {
    hide LeadLen, KeepLen;
    var n := LeadLen(before);
    var m := KeepLen(before[n..], false);
    var core := before[n..][..m];
    assert core == before[n..n + m];
    if Quoted(core) {
      assert core[1..m - 1] == before[n + 1..n + m - 1];
    }
  }

  /** The text is written between the padding, and between the quotes when there are any. */
  lemma {:induction false} RedisplayedIs(before: string, text: string) returns (lead: string, trail: string)
    ensures Blanks(lead) && Blanks(trail)
    ensures Redisplayed(before, text) == lead + (if Quoted(Trim(before, false)) then InQuotes(text) else text) + trail
  {
    hide LeadLen, KeepLen, Trim;
    lead, trail := Padding(before);
    var core := Trim(before, false);
    SpanOf(before, lead, core, trail);
    if Quoted(core) {
      CutQuotes(lead, core, trail);
      QuotedForms(lead, text, trail);
    } else {
      assert before[..|lead|] == lead && before[|lead| + |core|..] == trail;
    }
  }

  lemma {:induction false} CutQuotes(lead: string, core: string, trail: string)
    requires Quoted(core)
    ensures (lead + core + trail)[..|lead| + 1] == lead + "\""
    ensures (lead + core + trail)[|lead| + |core| - 1..] == "\"" + trail
  {
  }

  lemma {:induction false} SpanOf(before: string, lead: string, core: string, trail: string)
    requires before == lead + core + trail
    requires |lead| == LeadLen(before) && |lead| + KeepLen(before[LeadLen(before)..], false) == |lead + core|
    ensures DisplaySpan(before) ==
      if Quoted(core) then Span(|lead| + 1, |lead| + |core| - 1) else Span(|lead|, |lead| + |core|)
  {
    assert core != "" ==> before[|lead|] == core[0] && before[|lead| + |core| - 1] == core[|core| - 1];
  }

  lemma {:induction false} QuotedForms(lead: string, text: string, trail: string)
    ensures (lead + "\"") + text + ("\"" + trail) == lead + ("\"" + text + "\"") + trail
  {
  }

  /** Trimming a padded text never yields more than the text. */
  lemma {:induction false} TrimShortens(lead: string, text: string, trail: string)
    requires Blanks(lead) && Blanks(trail)
    ensures |Trim(lead + text + trail, false)| <= |text|
  {
    hide LeadLen, KeepLen;
    var all := lead + text + trail;
    var n := LeadLen(all);
    var m := KeepLen(all[n..], false);
    assert forall k :: 0 <= k < |lead| ==> all[k] == lead[k];
    assert forall k :: 0 <= k < |trail| ==> all[|lead| + |text| + k] == trail[k];
    if m > 0 {
      assert all[n..][m - 1] == all[n + m - 1];
      assert n + m - 1 < |lead| + |text|;
      assert n >= |lead|;
    }
  }

  /** What is written over a display name reads back exactly when it is quoted or needs no quotes. */
  lemma {:induction false} DisplayReadsBack(before: string, text: string)
    ensures DisplayText(Redisplayed(before, text)) == text <==>
            Quoted(Trim(before, false)) || (Trimmed(text, false) && !Quoted(text))
  {
    hide Trim, DisplayText, Redisplayed;
    var lead, trail := RedisplayedIs(before, text);
    DisplayIsUnquoted(Redisplayed(before, text));
    if Quoted(Trim(before, false)) {
      TrimPadded(lead, InQuotes(text), trail, false);
    } else {
      var all := lead + text + trail;
      TrimShortens(lead, text, trail);
      TrimIsTrimmed(all, false);
      if Trimmed(text, false) {
        TrimPadded(lead, text, trail, false);
      }
    }
  }

  /** Overwriting the display name is an update of the text before the bracket. */
  lemma {:induction false} DisplaySplices(v: string, c: Cuts, text: string)
    requires c.Shape(v) && c.angled && v[c.addr - 1] == '<'
    ensures Spliced(v, SpliceAt(v, c, URI_DISPLAY), text) ==
            PartsAt(v, c).(pre := Redisplayed(v[..c.addr - 1], text) + "<").Compose()
  {
    hide SpliceAt, Spliced, Redisplayed, PartsAt;
    DisplaySpliced(v, c, text);
    ReplacedPre(v, c, Redisplayed(v[..c.addr - 1], text) + "<");
  }

  lemma {:induction false} DisplaySpliced(v: string, c: Cuts, text: string)
    requires c.Shape(v) && c.angled && v[c.addr - 1] == '<'
    ensures Spliced(v, SpliceAt(v, c, URI_DISPLAY), text) == Redisplayed(v[..c.addr - 1], text) + "<" + v[c.addr..]
  {
    hide DisplaySpan;
    var before, rest := v[..c.addr - 1], v[c.addr..];
    var d := DisplaySpan(before);
    assert v[d.hi..] == before[d.hi..] + ("<" + rest);
    assert v[..d.lo] == before[..d.lo];
    SpliceForms(before[..d.lo], text, before[d.hi..], rest);
  }

  lemma {:induction false} ReplacedPre(v: string, c: Cuts, pre: string)
    requires c.Shape(v)
    ensures PartsAt(v, c).(pre := pre).Compose() == pre + v[c.addr..]
  {
    RestOf(v, c);
    hide PartsAt;
    var p := PartsAt(v, c);
    Reassociate(pre, p.SchemeText(), p.UserText(), p.host, p.PortText(), p.tail, p.post);
  }

  lemma {:induction false} RestOf(v: string, c: Cuts)
    requires c.Shape(v)
    ensures var p := PartsAt(v, c);
      v[c.addr..] == p.SchemeText() + (p.UserText() + (p.host + (p.PortText() + (p.tail + p.post))))
  {
    Suffixes(v, c);
    Stretches(v, c);
    AdjacentBack(v, c.rest, c.host);
    AdjacentBack(v, c.addr, c.rest);
  }

  lemma {:induction false} SpliceForms(a: string, text: string, b: string, rest: string)
    ensures a + "" + text + "" + (b + ("<" + rest)) == (a + text + b + "<") + rest
  {
  }

  lemma {:induction false} Reassociate(a: string, b: string, c: string, d: string, e: string, f: string, g: string)
    ensures a + (b + (c + (d + (e + (f + g))))) == a + b + c + d + e + f + g
  {
    Regroup(a, b, c, d + (e + (f + g)));
    GluePieces(a + b + c, d, e, f, g);
  }

  lemma {:induction false} PreCanonical(p: Parts, before: string)
    requires Canonical(p) && p.pre != ""
    ensures Canonical(p.(pre := before + "<")) <==> Avoids(before, '<')
  {
    hide HasScheme;
    var q := p.(pre := before + "<");
    assert q.pre[|before|] == '<' && forall k :: 0 <= k < |before| ==> q.pre[k] == before[k];
    assert q.Inner() == p.Inner();
  }

  lemma {:induction false} RedisplayedAvoids(before: string, text: string)
    requires Avoids(before, '<')
    ensures Avoids(Redisplayed(before, text), '<') <==> Avoids(text, '<')
  {
    hide DisplaySpan;
    var d := DisplaySpan(before);
    var all := Redisplayed(before, text);
    assert forall k :: 0 <= k < |text| ==> text[k] == all[d.lo + k];
  }

  /** The text before the bracket of a value that has one. */
  function Before(value: string): string
    requires CutsOf(value).angled
  {
    value[..CutsOf(value).addr - 1]
  }

  lemma {:induction false} DisplayAvoids(value: string)
    ensures Avoids(Read(value).display, '<')
  {
    hide DisplayText, Canonical, PartsOf, Read;
    ReadIsReadingOf(value);
    PartsAreCanonical(value);
    CanonicalDisplayAvoids(PartsOf(value));
  }

  lemma {:induction false} CanonicalDisplayAvoids(p: Parts)
    requires Canonical(p)
    ensures Avoids(ReadingOf(p).display, '<')
  {
    hide DisplaySpan, HasScheme;
  }

  lemma {:induction false} AngledPre(value: string)
    requires CutsOf(value).angled
    ensures PartsOf(value).pre == Before(value) + "<" && Avoids(Before(value), '<')
    ensures value[CutsOf(value).addr - 1] == '<'
  {
    hide CutsOf;
    CutsOfIsCut(value);
    BracketPre(value, CutsOf(value).addr);
  }

  lemma {:induction false} BracketPre(v: string, addr: nat)
    requires 0 < addr <= |v| && v[addr - 1] == '<' && Lacks(v, 0, addr - 1, '<')
    ensures v[..addr] == v[..addr - 1] + "<" && Avoids(v[..addr - 1], '<')
  {
  }

  /**
   Set-then-get for the display name, exactly: the text reads back and scheme, user, host,
   port and tail read as before, if and only if the text is safe there.
   */
  lemma {:induction false} SetGetDisplay(value: string, text: string)
    requires CutsOf(value).angled
    ensures Read(Rebuild(value, URI_DISPLAY, text)) == Read(value).(display := text) <==> DisplaySafe(Before(value), text)
  {
    hide CutsOf, ReadAt, Spliced, SpliceAt, PartsAt, Trim, DisplayText, Redisplayed, Canonical;
    var p, before := PartsOf(value), Before(value);
    AngledPre(value);
    PartsAreCanonical(value);
    DisplaySplices(value, CutsOf(value), text);
    var out := Redisplayed(before, text);
    var q := p.(pre := out + "<");
    RedisplayedAvoids(before, text);
    PreCanonical(p, out);
    PartsCompose(q);
    DisplayReadsBack(before, text);
    DisplayAvoids(Rebuild(value, URI_DISPLAY, text));
    if Avoids(text, '<') {
      assert q.pre[..|q.pre| - 1] == out;
      ReadIsReadingOf(value);
      ReadIsReadingOf(q.Compose());
    }
  }

  /** Without a '<', a display name is put in front, with a space. */
  lemma {:induction false} InsertsDisplay(value: string, text: string)
    requires Avoids(value, '<')
    ensures Rebuild(value, URI_DISPLAY, text) == text + " " + value
    ensures Component(value, URI_DISPLAY) == ""
  {
    CutsOfIsCut(value);
    hide CutsOf;
    assert value[..0] + "" + text + " " + value[0..] == text + " " + value;
  }

  /** The whole value, and selectors that name nothing. */
  lemma {:induction false} WholeValue(value: string, element: nat, text: string)
    ensures Component(value, URI_WHOLE) == value && Rebuild(value, URI_WHOLE, text) == text
    ensures element > URI_PORT ==> Component(value, element) == "" && Rebuild(value, element, text) == text
  {
    hide CutsOf;
    assert value[..0] + "" + text + "" + value[|value|..] == text;
  }
}
