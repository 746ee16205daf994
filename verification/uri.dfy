/**
 The SIP URI splitter and the one-component rewrite. `ParseUri` finds components
 by offsets; `Rebuild` splices a new text over one of them. `Parts` is the value
 cut into the strings between the offsets, and `Compose` glues them back.
 */
module Uri {
  import opened Text
  import opened Memory
  import opened Lowering

  const SCHEMES: set<string> := {"sip", "sips", "tel"}
  const DELIMITERS := ";?>"

  datatype Span = Span(lo: nat, hi: nat)

  /** Offsets of the display name in the text before '<': trimmed, then unquoted. */
  function DisplaySpan(before: string): (d: Span)
    ensures d.lo <= d.hi <= |before|
  {
    var lo := LeadLen(before);
    var hi := lo + KeepLen(before[lo..], false);
    if hi - lo >= 2 && before[lo] == '"' && before[hi - 1] == '"' then Span(lo + 1, hi - 1) else Span(lo, hi)
  }

  predicate HasScheme(inner: string) {
    var colon := IndexOf(inner, ':');
    colon < |inner| && inner[..colon] in SCHEMES
  }

  /** Where the addr-spec starts: after the first '<', or at the front. */
  function AddrLo(value: string): (i: nat)
    ensures i <= |value|
  {
    var lt := IndexOf(value, '<');
    if lt < |value| then lt + 1 else 0
  }

  /** Where the addr-spec ends: at the first '>' after '<', or at the end. */
  function AddrHi(value: string, addr: nat): (i: nat)
    requires addr <= |value|
    ensures addr <= i <= |value|
  {
    if addr > 0 then addr + IndexOf(value[addr..], '>') else |value|
  }

  /** Where the text after a recognised `scheme:` starts; `addr` itself without one. */
  function RestLo(value: string, addr: nat, end: nat): (i: nat)
    requires addr <= end <= |value|
    ensures i == addr || (addr < i <= end && value[i - 1] == ':')
  {
    var inner := value[addr..end];
    if HasScheme(inner) then addr + IndexOf(inner, ':') + 1 else addr
  }

  /** Where the host starts: after the first '@', or at `rest`. */
  function HostLo(value: string, rest: nat, end: nat): (i: nat)
    requires rest <= end <= |value|
    ensures i == rest || (rest < i <= end && value[i - 1] == '@')
  {
    var at := IndexOf(value[rest..end], '@');
    if at < end - rest then rest + at + 1 else rest
  }

  /** Where `host[:port]` ends: before the first of `;`, `?` and `>`. */
  function TailLo(value: string, host: nat, end: nat): (i: nat)
    requires host <= end <= |value|
    ensures host <= i <= end
  {
    host + IndexOfAny(value[host..end], DELIMITERS)
  }

  /** Where the port starts, after the last ':' of `host[:port]`; `host` itself without one. */
  function PortLo(value: string, host: nat, tail: nat): (i: nat)
    requires host <= tail <= |value|
    ensures i == host || (host < i <= tail && value[i - 1] == ':')
  {
    host + AfterLast(value[host..tail], ':')
  }

  /**
   The offsets that cut a value: `value[addr..end]` is the addr-spec,
   `scheme:` ends at `rest`, `user@` at `host`, the host at `hostHi`, and `port..tail` is the port.
   */
  datatype Cuts = Cuts(
    angled: bool, hasScheme: bool, hasUser: bool, hasPort: bool,
    addr: nat, rest: nat, host: nat, hostHi: nat, port: nat, tail: nat, end: nat)
  {
    predicate Shape(value: string) {
      && (angled ==> addr > 0)
      && addr <= rest <= host <= hostHi <= port <= tail <= end <= |value|
      && (if hasScheme then addr < rest && value[rest - 1] == ':' else rest == addr)
      && (if hasUser then rest < host && value[host - 1] == '@' else host == rest)
      && (if hasPort then port == hostHi + 1 && value[hostHi] == ':' else port == hostHi == tail)
    }
  }

  /** The offsets of a value, found from left to right: each step hands the next what it found. */
  function CutsOf(value: string): (c: Cuts)
    ensures c.Shape(value)
  {
    CutAddr(value, AddrLo(value), AddrHi(value, AddrLo(value)))
  }

  function CutAddr(value: string, addr: nat, end: nat): (c: Cuts)
    requires addr <= end <= |value|
    ensures c.Shape(value)
  {
    CutRest(value, addr, RestLo(value, addr, end), end)
  }

  function CutRest(value: string, addr: nat, rest: nat, end: nat): (c: Cuts)
    requires addr <= rest <= end <= |value|
    requires addr < rest ==> value[rest - 1] == ':'
    ensures c.Shape(value)
  {
    CutHostPort(value, addr, rest, HostLo(value, rest, end), end)
  }

  function CutHostPort(value: string, addr: nat, rest: nat, host: nat, end: nat): (c: Cuts)
    requires addr <= rest <= host <= end <= |value|
    requires (addr < rest ==> value[rest - 1] == ':') && (rest < host ==> value[host - 1] == '@')
    ensures c.Shape(value)
  {
    CutTail(value, addr, rest, host, TailLo(value, host, end), end)
  }

  function CutTail(value: string, addr: nat, rest: nat, host: nat, tail: nat, end: nat): (c: Cuts)
    requires addr <= rest <= host <= tail <= end <= |value|
    requires (addr < rest ==> value[rest - 1] == ':') && (rest < host ==> value[host - 1] == '@')
    ensures c.Shape(value)
  {
    CutPort(value, addr, rest, host, PortLo(value, host, tail), tail, end)
  }

  function CutPort(value: string, addr: nat, rest: nat, host: nat, port: nat, tail: nat, end: nat): (c: Cuts)
    requires addr <= rest <= host <= port <= tail <= end <= |value|
    requires (addr < rest ==> value[rest - 1] == ':') && (rest < host ==> value[host - 1] == '@')
    requires port > host ==> value[port - 1] == ':'
    ensures c.Shape(value)
  {
    if port > host then
      Cuts(addr > 0, rest > addr, host > rest, true, addr, rest, host, port - 1, port, tail, end)
    else
      Cuts(addr > 0, rest > addr, host > rest, false, addr, rest, host, tail, tail, tail, end)
  }

  /** A rewrite: `value[..start] + pre + text + post + value[end..]`. */
  datatype Splice = Splice(start: nat, end: nat, pre: string, post: string)

  function UserSplice(c: Cuts): Splice
    requires c.hasUser ==> c.host > 0
  {
    if c.hasUser then Splice(c.rest, c.host - 1, "", "") else Splice(c.host, c.host, "", "@")
  }

  function PortSplice(c: Cuts): Splice {
    if c.hasPort then Splice(c.port, c.tail, "", "") else Splice(c.hostHi, c.hostHi, ":", "")
  }

  function DisplaySplice(value: string, c: Cuts): Splice
    requires c.Shape(value)
  {
    if c.angled then
      var d := DisplaySpan(value[..c.addr - 1]);
      Splice(d.lo, d.hi, "", "")
    else Splice(0, 0, "", " ")
  }

  function SpliceAt(value: string, c: Cuts, element: nat): (s: Splice)
    requires c.Shape(value)
    ensures s.start <= s.end <= |value|
  {
    if element == URI_USER then UserSplice(c)
    else if element == URI_HOST then Splice(c.host, c.hostHi, "", "")
    else if element == URI_PORT then PortSplice(c)
    else if element == URI_DISPLAY then DisplaySplice(value, c)
    else Splice(0, |value|, "", "")
  }

  function Spliced(value: string, s: Splice, text: string): string
    requires s.start <= s.end <= |value|
  {
    value[..s.start] + s.pre + text + s.post + value[s.end..]
  }

  function Rebuild(value: string, element: nat, text: string): string {
    Spliced(value, SpliceAt(value, CutsOf(value), element), text)
  }

  function DisplayText(before: string): string {
    var d := DisplaySpan(before);
    before[d.lo..d.hi]
  }

  /** An absent display, user or port reads as the empty string. */
  function ComponentAt(value: string, c: Cuts, element: nat): string
    requires c.Shape(value)
  {
    if element == URI_WHOLE then value
    else if element == URI_DISPLAY then if c.angled then DisplayText(value[..c.addr - 1]) else ""
    else if element == URI_USER then if c.hasUser then value[c.rest..c.host - 1] else ""
    else if element == URI_HOST then value[c.host..c.hostHi]
    else if element == URI_PORT then if c.hasPort then value[c.port..c.tail] else ""
    else ""
  }

  /** The component text a URI selector reads; unknown selectors read nothing. */
  function Component(value: string, element: nat): string {
    ComponentAt(value, CutsOf(value), element)
  }

  /** Writes one piece at `p` and returns the advanced offset; `before + done` is what precedes it. */
  method Put(arena: HmrArena, p: nat, piece: string, ghost before: string, ghost done: string) returns (q: nat)
    requires arena.Valid() && p + |piece| <= arena.used
    requires arena.buffer[..p] == before + done
    modifies arena.buffer
    ensures arena.Valid() && q == p + |piece|
    ensures arena.buffer[..q] == before + (done + piece)
  {
    arena.Write(p, piece);
    q := p + |piece|;
  }

  /** Writes the spliced value into the arena through a moving offset. */
  method RebuildUri(arena: HmrArena, value: string, element: nat, text: string) returns (r: Slice)
    requires arena.Valid()
    modifies arena`used, arena.buffer
    ensures arena.Valid()
    ensures r.Null? <==> !Fits(old(arena.used), |Rebuild(value, element, text)|)
    ensures arena.Bytes() == old(arena.Bytes()) + if r.Null? then "" else Rebuild(value, element, text)
    ensures r.InBounds(0, arena.used)
    ensures r.View? ==> r.home == Arena && r.Read("", arena.Bytes()) == Rebuild(value, element, text)
  {
    r := WriteSplice(arena, value, SpliceAt(value, CutsOf(value), element), text);
  }

  method WriteSplice(arena: HmrArena, value: string, s: Splice, text: string) returns (r: Slice)
    requires arena.Valid() && s.start <= s.end <= |value|
    modifies arena`used, arena.buffer
    ensures arena.Valid()
    ensures r.Null? <==> !Fits(old(arena.used), |Spliced(value, s, text)|)
    ensures arena.Bytes() == old(arena.Bytes()) + if r.Null? then "" else Spliced(value, s, text)
    ensures r.InBounds(0, arena.used)
    ensures r.View? ==> r.home == Arena && r.Read("", arena.Bytes()) == Spliced(value, s, text)
  {
    ghost var before := arena.Bytes();
    var total := s.start + |s.pre| + |text| + |s.post| + (|value| - s.end);
    var dst := arena.Alloc(total);
    if dst.None? {
      return Null;
    }
    var p := Put(arena, dst.value, value[..s.start], before, "");
    p := Put(arena, p, s.pre, before, value[..s.start]);
    p := Put(arena, p, text, before, value[..s.start] + s.pre);
    p := Put(arena, p, s.post, before, value[..s.start] + s.pre + text);
    p := Put(arena, p, value[s.end..], before, value[..s.start] + s.pre + text + s.post);
    r := View(Arena, dst.value, total);
  }
}
