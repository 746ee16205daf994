/**
 What an element rule does, told by the part of the header it names and not by selector
 numbers: which text it tests and stores, and how the header reads after a replacement or
 a deletion, the arena limit of 64 KiB included.
 */
module ElementLaws {
  import opened Text
  import opened Ast
  import opened Lowering
  import opened Runtime
  import opened Semantics
  import opened UriLaws
  import UriDisplay
  import UriFields
  import Uri
  import M = Message

  /** The kinds of element that are carried out. */
  predicate Supported(kind: ElementType) {
    kind.HeaderValue? || kind.UriDisplay? || kind.UriUser? || kind.UriHost? || kind.UriPort?
  }

  /** The part of a header value that an element kind names. */
  function PartNamed(kind: ElementType, value: string): string {
    match kind
    case HeaderValue => value
    case UriDisplay => Read(value).display
    case UriUser => OrEmpty(PartsOf(value).user)
    case UriHost => PartsOf(value).host
    case UriPort => OrEmpty(PartsOf(value).port)
    case _ => ""
  }

  lemma {:induction false} ReadsNamed(kind: ElementType, value: string)
    ensures UriElement(kind).Some? <==> Supported(kind)
    ensures Supported(kind) ==> Uri.Component(value, UriElement(kind).value) == PartNamed(kind, value)
  {
    hide Uri.CutsOf, Uri.DisplayText;
    if kind.UriUser? || kind.UriHost? || kind.UriPort? {
      UriFields.ComponentOfParts(value, UriElement(kind).value);
    }
  }

  /** The guard of an element rule, put to the part it names. */
  ghost function GuardOn(t: Tables, hr: HeaderRule, er: ElementRule, s: State): (Context, bool) {
    Guard(t, er.comparison, er.matchValType, er.matchValue,
          PartNamed(er.kind, M.GetHeader(s.msg, hr.headerName)), s.ctx)
  }

  ghost predicate Acts(t: Tables, hr: HeaderRule, er: ElementRule, s: State) {
    Supported(er.kind) && GuardOn(t, hr, er, s).1
  }

  /** A rule that does not act leaves everything but the captures of its guard. */
  lemma {:induction false} ActsOrNot(t: Tables, hr: HeaderRule, er: ElementRule, s: State)
    ensures !Supported(er.kind) ==> ElementMeaning(t, hr, er, s) == Outcome(s, Continue)
    ensures Supported(er.kind) && !Acts(t, hr, er, s) ==>
      ElementMeaning(t, hr, er, s) == Outcome(s.(ctx := GuardOn(t, hr, er, s).0), Continue)
    ensures Acts(t, hr, er, s) ==>
      var hv := M.GetHeader(s.msg, hr.headerName);
      UriElement(er.kind).Some? && ElementMeaning(t, hr, er, s) ==
      ElementAct(t, hr, er, UriElement(er.kind).value, hv, PartNamed(er.kind, hv), s.(ctx := GuardOn(t, hr, er, s).0))
  {
    hide Guard, ElementAct, PartNamed, Uri.Component, M.GetHeader, UriElement, Supported;
    ReadsNamed(er.kind, M.GetHeader(s.msg, hr.headerName));
  }

  lemma {:induction false} GuardKeepsArena(t: Tables, hr: HeaderRule, er: ElementRule, s: State)
    ensures GuardOn(t, hr, er, s).0.used == s.ctx.used && GuardOn(t, hr, er, s).0.slots == s.ctx.slots
  {
    hide PlainMatch, RegexOf, PartNamed, M.GetHeader;
  }

  // ---- writing a part ------------------------------------------------------

  /** The kinds that are one component of the address. */
  predicate Component(kind: ElementType) {
    kind.UriUser? || kind.UriHost? || kind.UriPort?
  }

  /** The parts with the named one replaced. */
  function WithPart(p: Parts, kind: ElementType, text: string): Parts {
    match kind
    case UriUser => p.(user := Some(text))
    case UriHost => p.(host := text)
    case UriPort => p.(port := Some(text))
    case _ => p
  }

  /** Text that stays in its part. */
  predicate StaysIn(p: Parts, kind: ElementType, text: string) {
    match kind
    case UriUser => SafeText(p, URI_USER, text) && KeepsScheme(p, URI_USER, text)
    case UriHost => SafeText(p, URI_HOST, text) && KeepsScheme(p, URI_HOST, text)
    case UriPort => SafeText(p, URI_PORT, text) && KeepsScheme(p, URI_PORT, text)
    case _ => false
  }

  /** What a rewrite of the named part makes of the value. */
  function Rewritten(kind: ElementType, value: string, text: string): string {
    match kind
    case UriDisplay => Uri.Rebuild(value, URI_DISPLAY, text)
    case UriUser => Uri.Rebuild(value, URI_USER, text)
    case UriHost => Uri.Rebuild(value, URI_HOST, text)
    case UriPort => Uri.Rebuild(value, URI_PORT, text)
    case _ => text
  }

  predicate HasHeader(m: M.Message, name: string) {
    exists k :: 0 <= k < |m.headers| && !m.headers[k].removed && IEquals(m.headers[k].name, name)
  }

  /** `n` reads like `m` under every name but `name`, and has its start line and body. */
  ghost predicate OnlyHeader(m: M.Message, n: M.Message, name: string) {
    && n.(headers := m.headers) == m
    && (forall other: string :: !IEquals(name, other) ==> M.GetHeader(n, other) == M.GetHeader(m, other))
  }

  lemma {:induction false} SetPresent(s: State, name: string, value: string)
    requires HasHeader(s.msg, name)
    ensures
      var u := RtSetHeader(s, name, value);
      && OnlyHeader(s.msg, u.msg, name)
      && M.GetHeader(u.msg, name) ==
         (if value == "" || s.ctx.used + |value| <= 65536 then value else M.GetHeader(s.msg, name))
  {
    hide M.Find, IEquals, M.GetHeader;
    var w := M.SetHeader(s.msg, s.ctx.used, name, value);
    UriFields.Reflexive(name);
    FindsPresent(s.msg, name);
    M.SetRefinesList(s.msg, s.ctx.used, name, value);
    if w.ok {
      M.SetGet(s.msg, s.ctx.used, name, value, name);
      forall other: string | !IEquals(name, other) ensures M.GetHeader(w.msg, other) == M.GetHeader(s.msg, other) {
        M.SetGet(s.msg, s.ctx.used, name, value, other);
      }
    }
  }

  lemma {:induction false} FindsPresent(m: M.Message, name: string)
    requires HasHeader(m, name)
    ensures M.Find(m.headers, name) < |m.headers|
  {
    hide IEquals;
    var k :| 0 <= k < |m.headers| && !m.headers[k].removed && IEquals(m.headers[k].name, name);
    assert M.Matches(m.headers[k], name);
  }

  /** The text an element rule writes: the value of a replacement, nothing for a deletion. */
  function WrittenText(t: Tables, er: ElementRule, ctx: Context): string {
    if er.action.ReplaceElement? then ValueText(t, er.newValue, ctx) else ""
  }

  predicate WritesPart(er: ElementRule) {
    er.action.ReplaceElement? || (er.action.DeleteElement? && !er.kind.HeaderValue?)
  }

  /**
   Replacing or deleting a named part: the header reads as the rewritten value if both copies
   of it fit; if the first does not, it reads empty, and if the second does not, as before.
   Nothing else of the message changes.
   */
  lemma {:induction false} WritesRewritten(t: Tables, hr: HeaderRule, er: ElementRule, s: State)
    requires Acts(t, hr, er, s) && WritesPart(er) && !er.kind.HeaderValue? && HasHeader(s.msg, hr.headerName)
    ensures
      var o := ElementMeaning(t, hr, er, s);
      var hv := M.GetHeader(s.msg, hr.headerName);
      var out := Rewritten(er.kind, hv, WrittenText(t, er, GuardOn(t, hr, er, s).0));
      && o.flow.Continue? && OnlyHeader(s.msg, o.state.msg, hr.headerName)
      && M.GetHeader(o.state.msg, hr.headerName) ==
         (if out == "" || s.ctx.used + |out| > 65536 then ""
          else if s.ctx.used + 2 * |out| <= 65536 then out else hv)
  {
    hide Guard, ValueText, M.GetHeader, Uri.Rebuild, RtSetHeader, HasHeader, OnlyHeader, PartNamed;
    ActsOrNot(t, hr, er, s);
    GuardKeepsArena(t, hr, er, s);
    var hv := M.GetHeader(s.msg, hr.headerName);
    var g := s.(ctx := GuardOn(t, hr, er, s).0);
    var e := if er.action.ReplaceElement? then Evaluated(t, er.newValue, g) else g;
    var out := Rewritten(er.kind, hv, WrittenText(t, er, g.ctx));
    var r := RtUriSet(e.ctx, hv, UriElement(er.kind).value, WrittenText(t, er, g.ctx));
    SetPresent(e.(ctx := r.0), hr.headerName, r.1);
  }

  /** A `uri-user`, `uri-host` or `uri-port` rule rewrites that part of the header and no other. */
  lemma {:induction false} WritesNamed(t: Tables, hr: HeaderRule, er: ElementRule, s: State)
    requires Acts(t, hr, er, s) && WritesPart(er) && Component(er.kind) && HasHeader(s.msg, hr.headerName)
    requires
      var hv := M.GetHeader(s.msg, hr.headerName);
      var text := WrittenText(t, er, GuardOn(t, hr, er, s).0);
      StaysIn(PartsOf(hv), er.kind, text) && s.ctx.used + 2 * |Rewritten(er.kind, hv, text)| <= 65536
    ensures
      var o := ElementMeaning(t, hr, er, s);
      var text := WrittenText(t, er, GuardOn(t, hr, er, s).0);
      && o.flow.Continue? && OnlyHeader(s.msg, o.state.msg, hr.headerName)
      && PartsOf(M.GetHeader(o.state.msg, hr.headerName)) ==
         WithPart(PartsOf(M.GetHeader(s.msg, hr.headerName)), er.kind, text)
  {
    hide Guard, ValueText, M.GetHeader, Uri.Rebuild, HasHeader, OnlyHeader, PartsOf, SafeText, KeepsScheme, ElementMeaning, PartNamed;
    var hv := M.GetHeader(s.msg, hr.headerName);
    var text := WrittenText(t, er, GuardOn(t, hr, er, s).0);
    WritesRewritten(t, hr, er, s);
    SetsNamed(er.kind, hv, text);
    if Rewritten(er.kind, hv, text) == "" {
      assert s.ctx.used + |Rewritten(er.kind, hv, text)| <= 65536;
    }
  }

  lemma {:induction false} SetsNamed(kind: ElementType, value: string, text: string)
    requires Component(kind) && StaysIn(PartsOf(value), kind, text)
    ensures PartsOf(Rewritten(kind, value, text)) == WithPart(PartsOf(value), kind, text)
  {
    hide Uri.Rebuild, PartsOf, SafeText, KeepsScheme;
    SetGet(value, if kind.UriUser? then URI_USER else if kind.UriHost? then URI_HOST else URI_PORT, text);
  }

  /** A `uri-display` rule on a value with '<' rewrites the display name and nothing else. */
  lemma {:induction false} WritesDisplay(t: Tables, hr: HeaderRule, er: ElementRule, s: State)
    requires Acts(t, hr, er, s) && WritesPart(er) && er.kind.UriDisplay? && HasHeader(s.msg, hr.headerName)
    requires
      var hv := M.GetHeader(s.msg, hr.headerName);
      var text := WrittenText(t, er, GuardOn(t, hr, er, s).0);
      && Uri.CutsOf(hv).angled && UriDisplay.DisplaySafe(UriDisplay.Before(hv), text)
      && s.ctx.used + 2 * |Rewritten(er.kind, hv, text)| <= 65536
    ensures
      var o := ElementMeaning(t, hr, er, s);
      var text := WrittenText(t, er, GuardOn(t, hr, er, s).0);
      && o.flow.Continue? && OnlyHeader(s.msg, o.state.msg, hr.headerName)
      && Read(M.GetHeader(o.state.msg, hr.headerName)) ==
         Read(M.GetHeader(s.msg, hr.headerName)).(display := text)
  {
    hide Guard, ValueText, M.GetHeader, Uri.Rebuild, HasHeader, OnlyHeader, Read, ElementMeaning, PartNamed;
    hide UriDisplay.DisplaySafe, UriDisplay.Before;
    var hv := M.GetHeader(s.msg, hr.headerName);
    WritesRewritten(t, hr, er, s);
    UriDisplay.SetGetDisplay(hv, WrittenText(t, er, GuardOn(t, hr, er, s).0));
    if Rewritten(er.kind, hv, WrittenText(t, er, GuardOn(t, hr, er, s).0)) == "" {
      assert s.ctx.used + |Rewritten(er.kind, hv, WrittenText(t, er, GuardOn(t, hr, er, s).0))| <= 65536;
    }
  }

  /** A `header-value` replacement: the header reads the text if it fits, and as before if it does not. */
  lemma {:induction false} WritesWhole(t: Tables, hr: HeaderRule, er: ElementRule, s: State)
    requires Acts(t, hr, er, s) && er.action.ReplaceElement? && er.kind.HeaderValue? && HasHeader(s.msg, hr.headerName)
    ensures
      var o := ElementMeaning(t, hr, er, s);
      var text := ValueText(t, er.newValue, GuardOn(t, hr, er, s).0);
      && o.flow.Continue? && OnlyHeader(s.msg, o.state.msg, hr.headerName)
      && M.GetHeader(o.state.msg, hr.headerName) ==
         (if text == "" || s.ctx.used + |text| <= 65536 then text else M.GetHeader(s.msg, hr.headerName))
  {
    hide Guard, ValueText, M.GetHeader, RtSetHeader, HasHeader, OnlyHeader, PartNamed;
    ActsOrNot(t, hr, er, s);
    GuardKeepsArena(t, hr, er, s);
    var g := s.(ctx := GuardOn(t, hr, er, s).0);
    SetPresent(Evaluated(t, er.newValue, g), hr.headerName, ValueText(t, er.newValue, g.ctx));
  }

  /** A `header-value` deletion removes the header under every spelling of its name, and no other. */
  lemma {:induction false} DeletesWhole(t: Tables, hr: HeaderRule, er: ElementRule, s: State, other: string)
    requires Acts(t, hr, er, s) && er.action.DeleteElement? && er.kind.HeaderValue?
    ensures
      var o := ElementMeaning(t, hr, er, s);
      && o.flow.Continue? && o.state.msg.(headers := s.msg.headers) == s.msg
      && M.GetHeader(o.state.msg, other) == if IEquals(hr.headerName, other) then "" else M.GetHeader(s.msg, other)
  {
    hide Guard, M.GetHeader, IEquals, PartNamed;
    ActsOrNot(t, hr, er, s);
    M.DeleteGet(s.msg, hr.headerName, other);
  }

  /** A store keeps the named part, under the name of the element rule or, without one, `<rule>.el`. */
  lemma {:induction false} StoresNamed(t: Tables, hr: HeaderRule, er: ElementRule, s: State)
    requires Acts(t, hr, er, s) && er.action.StoreElement?
    ensures
      var o := ElementMeaning(t, hr, er, s);
      var slot := SlotOf(t, if er.name == "" then hr.name + ".el" else er.name);
      && o.flow.Continue? && o.state.msg == s.msg
      && (slot < |s.ctx.slots| ==>
          o.state.ctx.slots == s.ctx.slots[slot := PartNamed(er.kind, M.GetHeader(s.msg, hr.headerName))])
  {
    hide Guard, M.GetHeader, SlotOf, PartNamed;
    ActsOrNot(t, hr, er, s);
    GuardKeepsArena(t, hr, er, s);
  }

  /** A reject ends the apply with code 403 and the value, or the name of the element rule, as reason. */
  lemma {:induction false} RejectsWithReason(t: Tables, hr: HeaderRule, er: ElementRule, s: State)
    requires Acts(t, hr, er, s) && er.action.RejectElement?
    ensures
      var o := ElementMeaning(t, hr, er, s);
      && o.flow.Rejected? && o.state.msg == s.msg && o.state.ctx.rejected && o.state.ctx.rejectCode == 403
      && o.state.ctx.rejectReason ==
         if er.newValue.raw == "" then er.name else ValueText(t, er.newValue, GuardOn(t, hr, er, s).0)
  {
    hide Guard, M.GetHeader, ValueText, PartNamed;
    ActsOrNot(t, hr, er, s);
  }
}
