/**
 The per-worker context object and the runtime callbacks over it. Every callback is
 proved to change the plain state exactly as its function in module `Runtime` says,
 and to do nothing when a handle is null, as in the scan of the interpreter.
 */
module Callbacks {
  import opened Text
  import opened Memory
  import opened Lowering
  import opened SipMessage
  import M = Message
  import R = Runtime
  import Uri
  import IpMatchers

  class HmrContext {
    const arena: HmrArena
    const engine: R.Engine
    var vars: seq<string>
    var regexes: seq<R.RegexEntry>
    var slots: seq<string>
    var hasMatch: bool
    var lastMatch: R.Captures
    var scratch: string
    var logs: seq<string>
    var rejected: bool
    var rejectCode: nat
    var rejectReason: string

    function Plain(): R.Context
      reads this, arena
    {
      R.Context(arena.used, vars, regexes, engine, slots, hasMatch, lastMatch, scratch,
                logs, rejected, rejectCode, rejectReason)
    }

    constructor (engine: R.Engine)
      ensures fresh(arena) && fresh(arena.buffer) && arena.Valid() && this.engine == engine
      ensures Plain() == R.Context(0, seq(VAR_MAX, i => ""), [], engine, [], false, [], "", [], false, 0, "")
    {
      arena := new HmrArena();
      this.engine := engine;
      vars := seq(VAR_MAX, i => "");
      regexes, slots, lastMatch, logs := [], [], [], [];
      hasMatch, rejected := false, false;
      scratch, rejectReason, rejectCode := "", "", 0;
    }

    method Prepare(info: R.ModuleInfo)
      modifies this`regexes, this`slots
      ensures Plain() == R.Prepare(old(Plain()), info)
    {
      regexes := [];
      for i := 0 to |info.regexes|
        invariant regexes == info.regexes[..i]
      {
        regexes := regexes + [info.regexes[i]];
      }
      slots := seq(info.numSlots, i => "");
    }

    method ResetForApply()
      requires arena.Valid()
      modifies this, arena`used
      ensures arena.Valid() && Plain() == R.ResetForApply(old(Plain()))
    {
      arena.Reset();
      hasMatch := false;
      scratch := "";
      logs := [];
      rejected := false;
      rejectCode := 0;
      rejectReason := "";
    }
  }

  /** Both handles, or neither: the apply and the scan. */
  ghost predicate Linked(msg: HmrSipMsg?, ctx: HmrContext?)
    reads msg, ctx, if ctx != null then {ctx.arena} else {}, if msg != null then {msg.headers} else {}
  {
    (msg == null <==> ctx == null) &&
    (msg != null ==> ctx.arena.Valid() && msg.Valid(ctx.arena.used))
  }

  /** What a header write may change. */
  ghost function Written(msg: HmrSipMsg?, ctx: HmrContext?): set<object> {
    if msg != null && ctx != null then {msg, msg.headers, ctx.arena, ctx.arena.buffer} else {}
  }

  /** The plain state behind the two handles. */
  ghost function StateOf(msg: HmrSipMsg, ctx: HmrContext): R.State
    requires ctx.arena.Valid() && msg.Valid(ctx.arena.used)
    reads msg, msg.headers, ctx, ctx.arena, ctx.arena.buffer
  {
    R.State(msg.Plain(ctx.arena.Bytes()), ctx.Plain())
  }

  method RtGetHeader(msg: HmrSipMsg?, ctx: HmrContext?, name: string) returns (v: string)
    requires Linked(msg, ctx)
    ensures msg != null ==> v == M.GetHeader(StateOf(msg, ctx).msg, name)
  {
    if msg == null { return ""; }
    var slice := msg.GetHeader(name, ctx.arena);
    return slice.Read(msg.raw, ctx.arena.Bytes());
  }

  method RtSetHeader(msg: HmrSipMsg?, ctx: HmrContext?, name: string, value: string)
    requires Linked(msg, ctx)
    modifies Written(msg, ctx)
    ensures Linked(msg, ctx)
    ensures msg != null ==> StateOf(msg, ctx) == R.RtSetHeader(old(StateOf(msg, ctx)), name, value)
  {
    if msg == null || ctx == null { return; }
    var ok := msg.SetHeader(name, value, ctx.arena);
  }

  method RtAddHeader(msg: HmrSipMsg?, ctx: HmrContext?, name: string, value: string)
    requires Linked(msg, ctx)
    modifies Written(msg, ctx)
    ensures Linked(msg, ctx)
    ensures msg != null ==> StateOf(msg, ctx) == R.RtAddHeader(old(StateOf(msg, ctx)), name, value)
  {
    if msg == null || ctx == null { return; }
    var ok := msg.AddHeader(name, value, ctx.arena);
  }

  method RtDeleteHeader(msg: HmrSipMsg?, ctx: HmrContext?, name: string)
    requires Linked(msg, ctx)
    modifies Written(msg, ctx)
    ensures Linked(msg, ctx)
    ensures msg != null ==> StateOf(msg, ctx) == R.RtDeleteHeader(old(StateOf(msg, ctx)), name)
  {
    if msg == null { return; }
    var any := msg.DeleteHeader(name, ctx.arena);
  }

  method RtIsRequest(msg: HmrSipMsg?, ctx: HmrContext?) returns (r: bool)
    requires Linked(msg, ctx)
    ensures msg != null ==> r == StateOf(msg, ctx).msg.start.isRequest
  {
    return msg != null && msg.start.isRequest;
  }

  method RtGetMethod(msg: HmrSipMsg?, ctx: HmrContext?) returns (v: string)
    requires Linked(msg, ctx)
    ensures msg != null ==> v == StateOf(msg, ctx).msg.start.verb
  {
    return if msg == null then "" else msg.start.verb.Read(msg.raw, "");
  }

  method RtStrEq(a: string, b: string, caseInsensitive: bool) returns (r: bool)
    ensures r == if caseInsensitive then IEquals(a, b) else a == b
  {
    return if caseInsensitive then IEquals(a, b) else a == b;
  }

  method RtRegexMatch(ctx: HmrContext?, regexId: nat, subject: string) returns (r: bool)
    modifies ctx
    ensures ctx != null ==> (ctx.Plain(), r) == R.RtRegexMatch(old(ctx.Plain()), regexId, subject)
  {
    if ctx == null || regexId >= |ctx.regexes| { return false; }
    var m := ctx.engine(ctx.regexes[regexId], subject);
    ctx.lastMatch := if m.Some? then m.value else [];
    ctx.hasMatch := m.Some?;
    return m.Some?;
  }

  /** Routes a comparison to the matcher its type selects. */
  method RtMatch(ctx: HmrContext?, matchType: nat, subject: string, pattern: string, regexId: nat) returns (r: bool)
    modifies ctx
    ensures ctx != null ==> (ctx.Plain(), r) == R.RtMatch(old(ctx.Plain()), matchType, subject, pattern, regexId)
  {
    hide IpMatchers.InSubnet, IpMatchers.InRange, IpMatchers.MatchIp, IpMatchers.MatchFqdn, IpMatchers.MatchExact;
    if matchType == MATCH_EXACT {
      r := IpMatchers.MatchExact(subject, pattern, false);
    } else if matchType == MATCH_EXACT_CI {
      r := IpMatchers.MatchExact(subject, pattern, true);
    } else if matchType == MATCH_REGEX {
      r := RtRegexMatch(ctx, regexId, subject);
    } else if matchType == MATCH_IP {
      r := IpMatchers.MatchIp(subject, pattern);
    } else if matchType == MATCH_IP_MASK {
      r := IpMatchers.MatchIpMask(subject, pattern);
    } else if matchType == MATCH_IP_RANGE {
      r := IpMatchers.MatchIpRange(subject, pattern);
    } else if matchType == MATCH_FQDN {
      r := IpMatchers.MatchFqdn(subject, pattern);
    } else {
      r := false;
    }
  }

  method RtGetCapture(ctx: HmrContext?, index: nat) returns (v: string)
    ensures ctx != null ==> v == R.RtGetCapture(ctx.Plain(), index)
  {
    if ctx == null || !ctx.hasMatch || index >= |ctx.lastMatch| || ctx.lastMatch[index].None? { return ""; }
    return ctx.lastMatch[index].value;
  }

  method RtGetVar(ctx: HmrContext?, id: nat) returns (v: string)
    ensures ctx != null ==> v == R.RtGetVar(ctx.Plain(), id)
  {
    if ctx == null || id == 0 || id >= VAR_MAX || id >= |ctx.vars| { return ""; }
    return ctx.vars[id];
  }

  method RtStore(ctx: HmrContext?, slot: nat, value: string)
    modifies ctx
    ensures ctx != null ==> ctx.Plain() == R.RtStore(old(ctx.Plain()), slot, value)
  {
    if ctx == null || slot >= |ctx.slots| { return; }
    ctx.slots := ctx.slots[slot := value];
  }

  method RtLoad(ctx: HmrContext?, slot: nat) returns (v: string)
    ensures ctx != null ==> v == R.RtLoad(ctx.Plain(), slot)
  {
    if ctx == null || slot >= |ctx.slots| { return ""; }
    return ctx.slots[slot];
  }

  method RtValReset(ctx: HmrContext?)
    modifies ctx
    ensures ctx != null ==> ctx.Plain() == old(ctx.Plain()).(scratch := "")
  {
    if ctx != null {
      ctx.scratch := "";
    }
  }

  method RtValAppend(ctx: HmrContext?, text: string)
    modifies ctx
    ensures ctx != null ==> ctx.Plain() == R.RtAppend(old(ctx.Plain()), text)
  {
    if ctx != null {
      ctx.scratch := ctx.scratch + text;
    }
  }

  method RtValFinish(ctx: HmrContext?) returns (v: string)
    ensures ctx != null ==> v == ctx.Plain().scratch
  {
    return if ctx != null then ctx.scratch else "";
  }

  method RtUriGet(ctx: HmrContext?, value: string, element: nat) returns (v: string)
    ensures ctx != null ==> v == Uri.Component(value, element)
  {
    return if ctx == null then "" else Uri.Component(value, element);
  }

  /** Rebuilds into the arena; `msg` only says whose views must stay good. */
  method RtUriSet(ghost msg: HmrSipMsg?, ctx: HmrContext?, value: string, element: nat, text: string) returns (v: string)
    requires Linked(msg, ctx)
    modifies Written(msg, ctx)
    ensures Linked(msg, ctx)
    ensures msg != null ==>
      var r := R.RtUriSet(old(StateOf(msg, ctx)).ctx, value, element, text);
      v == r.1 && StateOf(msg, ctx) == old(StateOf(msg, ctx)).(ctx := r.0)
  {
    hide Uri.Rebuild, Slice.Read;
    if ctx == null { return ""; }
    ghost var bytes := ctx.arena.Bytes();
    var r := Uri.RebuildUri(ctx.arena, value, element, text);
    PlainStable(msg.Look(), msg.raw, bytes, if r.Null? then "" else Uri.Rebuild(value, element, text));
    return ReadArena(r, ctx.arena.Bytes());
  }

  function ReadArena(r: Slice, bytes: string): (v: string)
    requires r.InBounds(0, |bytes|)
    ensures v == r.Read("", bytes) && (r.Null? ==> v == "")
  {
    r.Read("", bytes)
  }

  method RtLog(ctx: HmrContext?, text: string)
    modifies ctx
    ensures ctx != null ==> ctx.Plain() == R.RtLog(old(ctx.Plain()), text)
  {
    if ctx != null {
      ctx.logs := ctx.logs + [text];
    }
  }

  method RtReject(ctx: HmrContext?, code: nat, reason: string)
    modifies ctx
    ensures ctx != null ==> ctx.Plain() == R.RtReject(old(ctx.Plain()), code, reason)
  {
    if ctx != null {
      ctx.rejected := true;
      ctx.rejectCode := code;
      ctx.rejectReason := reason;
    }
  }
}
