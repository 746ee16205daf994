/**
 What each runtime callback does, as a function on the plain state of one apply:
 the message, and the context with its arena accounting, slots, captures and
 side channels. All three back ends are given meaning through these functions.
 */
module Runtime {
  import opened Text
  import opened Memory
  import opened Lowering
  import opened Message
  import Uri
  import IpMatchers

  /** A pattern of the module's regex table; flag 1 ignores case. */
  datatype RegexEntry = RegexEntry(pattern: string, flags: nat)

  /** Submatches by group number; a group that took no part in the match is None. */
  type Captures = seq<Option<string>>

  /** The regex engine is left open: any function from a pattern and a subject to captures. */
  type Engine = (RegexEntry, string) -> Option<Captures>

  datatype Context = Context(
    used: nat, vars: seq<string>, regexes: seq<RegexEntry>, engine: Engine, slots: seq<string>,
    hasMatch: bool, lastMatch: Captures, scratch: string,
    logs: seq<string>, rejected: bool, rejectCode: nat, rejectReason: string)

  datatype State = State(msg: Message, ctx: Context)

  /** What a loaded module publishes for the host to prepare a context with. */
  datatype ModuleInfo = ModuleInfo(numSlots: nat, regexes: seq<RegexEntry>)

  function Prepare(ctx: Context, info: ModuleInfo): Context {
    ctx.(regexes := info.regexes, slots := seq(info.numSlots, i => ""))
  }

  /** Per-packet reset: slots, variables and the regex table survive. */
  function ResetForApply(ctx: Context): Context {
    ctx.(used := 0, hasMatch := false, scratch := "", logs := [], rejected := false, rejectCode := 0, rejectReason := "")
  }

  // ---- headers -------------------------------------------------------------

  function After(s: State, w: Write): State {
    State(w.msg, s.ctx.(used := w.used))
  }

  function RtSetHeader(s: State, name: string, value: string): State {
    After(s, SetHeader(s.msg, s.ctx.used, name, value))
  }

  function RtAddHeader(s: State, name: string, value: string): State {
    After(s, AddHeader(s.msg, s.ctx.used, name, value))
  }

  function RtDeleteHeader(s: State, name: string): State {
    s.(msg := DeleteHeader(s.msg, name))
  }

  // ---- comparison ----------------------------------------------------------

  function RtRegexMatch(ctx: Context, regexId: nat, subject: string): (Context, bool) {
    if regexId >= |ctx.regexes| then (ctx, false)
    else
      var m := ctx.engine(ctx.regexes[regexId], subject);
      (ctx.(hasMatch := m.Some?, lastMatch := if m.Some? then m.value else []), m.Some?)
  }

  ghost function RtMatch(ctx: Context, matchType: nat, subject: string, pattern: string, regexId: nat): (Context, bool) {
    if matchType == MATCH_REGEX then RtRegexMatch(ctx, regexId, subject)
    else (ctx, PlainMatch(matchType, subject, pattern))
  }

  ghost predicate PlainMatch(matchType: nat, subject: string, pattern: string) {
    if matchType == MATCH_EXACT then IpMatchers.MatchExact(subject, pattern, false)
    else if matchType == MATCH_EXACT_CI then IpMatchers.MatchExact(subject, pattern, true)
    else if matchType == MATCH_IP then IpMatchers.MatchIp(subject, pattern)
    else if matchType == MATCH_IP_MASK then IpMatchers.InSubnet(subject, pattern)
    else if matchType == MATCH_IP_RANGE then IpMatchers.InRange(subject, pattern)
    else matchType == MATCH_FQDN && IpMatchers.MatchFqdn(subject, pattern)
  }

  // ---- captures, variables, slots ------------------------------------------

  function RtGetCapture(ctx: Context, index: nat): string {
    if ctx.hasMatch && index < |ctx.lastMatch| && ctx.lastMatch[index].Some? then ctx.lastMatch[index].value else ""
  }

  function RtGetVar(ctx: Context, id: nat): string {
    if 0 < id < VAR_MAX && id < |ctx.vars| then ctx.vars[id] else ""
  }

  function RtStore(ctx: Context, slot: nat, value: string): Context {
    if slot < |ctx.slots| then ctx.(slots := ctx.slots[slot := value]) else ctx
  }

  function RtLoad(ctx: Context, slot: nat): string {
    if slot < |ctx.slots| then ctx.slots[slot] else ""
  }

  // ---- value builder -------------------------------------------------------

  function RtAppend(ctx: Context, text: string): Context {
    ctx.(scratch := ctx.scratch + text)
  }

  // ---- URI elements --------------------------------------------------------

  /** The rebuilt value; the empty string when it does not fit the arena. */
  function RtUriSet(ctx: Context, value: string, element: nat, text: string): (Context, string) {
    var out := Uri.Rebuild(value, element, text);
    if Fits(ctx.used, |out|) then (ctx.(used := ctx.used + |out|), out) else (ctx, "")
  }

  // ---- diagnostics and control ---------------------------------------------

  function RtLog(ctx: Context, text: string): Context {
    ctx.(logs := ctx.logs + [text])
  }

  function RtReject(ctx: Context, code: nat, reason: string): Context {
    ctx.(rejected := true, rejectCode := code, rejectReason := reason)
  }
}
