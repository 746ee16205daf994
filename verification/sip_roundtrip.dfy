/**
 Parsing undoes printing (RFC 3261, section 7): a message whose texts are clean is
 recovered with its tombstones dropped; every message reached from a parsed packet
 by clean header operations is clean; and normalising any packet twice is
 normalising it once.
 */
module SipRoundTrip {
  import opened Text
  import opened Message

  predicate NoNewline(s: string) {
    forall k :: 0 <= k < |s| ==> s[k] != '\n'
  }

  predicate NoColon(s: string) {
    forall k :: 0 <= k < |s| ==> s[k] != ':'
  }

  /** A name or value that a header line carries unharmed. */
  predicate CleanName(s: string) {
    Trimmed(s, true) && NoNewline(s) && NoColon(s)
  }

  predicate CleanValue(s: string) {
    Trimmed(s, true) && NoNewline(s)
  }

  predicate CleanHeaders(headers: seq<Header>) {
    forall k :: 0 <= k < |headers| ==> CleanName(headers[k].name) && CleanValue(headers[k].value)
  }

  /** The live headers as a parser would list them. */
  function Compact(headers: seq<Header>): (r: seq<Header>)
    ensures |r| <= |headers|
  {
    if headers == [] then []
    else if headers[0].removed then Compact(headers[1..])
    else [headers[0]] + Compact(headers[1..])
  }

  // ---- one line ------------------------------------------------------------

  /** A line without a newline inside is cut off whole. */
  lemma {:induction false} CutLine(line: string, rest: string)
    requires NoNewline(line)
    ensures FirstLine(line + "\n" + rest) == line && AfterLine(line + "\n" + rest) == rest
  {
    var s := line + "\n" + rest;
    assert forall k :: 0 <= k < |line| ==> s[k] == line[k];
    FirstIs(s, '\n', |line|);
  }

  /** A printed header line reads back as that header. */
  lemma {:induction false} ReadHeaderLine(h: Header, headers: seq<Header>)
    requires CleanName(h.name) && CleanValue(h.value) && !h.removed && |headers| < MAX_HEADERS
    ensures var line := h.name + ": " + h.value + "\r";
            NoNewline(line) && Trim(line, true) != "" && AddParsed(headers, line) == headers + [h]
  {
    hide Trim, IndexOf;
    var line := h.name + ": " + h.value + "\r";
    LineParts(h.name, h.value);
    FirstIs(line, ':', |h.name|);
    TrimPadded("", h.name, "", true);
    TrimPadded(" ", h.value, "\r", true);
    KeepsInk(line, |h.name|);
  }

  lemma {:induction false} LineParts(name: string, value: string)
    requires NoColon(name) && NoNewline(name) && NoNewline(value)
    ensures var line := name + ": " + value + "\r";
            && NoNewline(line) && line[|name|] == ':' && (forall k :: 0 <= k < |name| ==> line[k] != ':')
            && line[..|name|] == "" + name + "" && line[|name| + 1..] == " " + value + "\r"
  {
    var line := name + ": " + value + "\r";
    assert forall k :: 0 <= k < |name| ==> line[k] == name[k];
    assert forall k :: 0 <= k < |value| ==> line[|name| + 2 + k] == value[k];
  }

  /** Trimming cannot erase a character that is neither blank nor a carriage return. */
  lemma {:induction false} KeepsInk(s: string, i: nat)
    requires i < |s| && !IsBlank(s[i]) && s[i] != '\r'
    ensures Trim(s, true) != ""
  {
    var n := LeadLen(s);
    assert n <= i;
    var front := s[n..];
    assert front[i - n] == s[i];
  }

  lemma {:induction false} HeaderLineEnds(h: Header, rest: string)
    requires !h.removed
    ensures HeaderLine(h) + rest == (h.name + ": " + h.value + "\r") + "\n" + rest
  {
  }

  lemma {:induction false} Associate(a: string, b: string, c: string, d: string)
    ensures (a + b) + c + d == a + (b + c + d)
  {
  }

  // ---- the header block ----------------------------------------------------

  /** Printed header lines, the blank line and a body read back as live headers and body. */
  lemma {:induction false} ReadHeaderLines(headers: seq<Header>, body: string, acc: seq<Header>)
    requires CleanHeaders(headers) && |acc| + |Compact(headers)| <= MAX_HEADERS
    ensures ParseFields(HeaderLines(headers) + "\r\n" + body, acc) == Fields(acc + Compact(headers), body)
    decreases |headers|
  {
    hide FirstLine, AfterLine, Trim, HeaderLine, AddParsed;
    if headers == [] {
      BlankLine(body);
      assert acc + [] == acc;
      assert HeaderLines([]) + "\r\n" + body == "\r" + "\n" + body;
    } else {
      var h := headers[0];
      var rest := HeaderLines(headers[1..]) + "\r\n" + body;
      Associate(HeaderLine(h), HeaderLines(headers[1..]), "\r\n", body);
      if h.removed {
        RemovedLine(h, rest);
        ReadHeaderLines(headers[1..], body, acc);
      } else {
        var line := h.name + ": " + h.value + "\r";
        HeaderLineEnds(h, rest);
        ReadHeaderLine(h, acc);
        CutLine(line, rest);
        ReadHeaderLines(headers[1..], body, acc + [h]);
        assert acc + [h] + Compact(headers[1..]) == acc + ([h] + Compact(headers[1..]));
      }
    }
  }

  lemma {:induction false} RemovedLine(h: Header, rest: string)
    requires h.removed
    ensures HeaderLine(h) + rest == rest
  {
  }

  lemma {:induction false} BlankLine(body: string)
    ensures FirstLine("\r" + "\n" + body) == "\r" && AfterLine("\r" + "\n" + body) == body
    ensures Trim("\r", true) == ""
  {
    CutLine("\r", body);
    TrimPadded("", "", "\r", true);
    assert "" + "" + "\r" == "\r";
  }

  // ---- the message ---------------------------------------------------------

  /** Clean texts, a start line whose fields were parsed from it, and no URI override. */
  predicate Clean(m: Message) {
    && CleanValue(m.startLine) && m.start == ParseStart(m.startLine) && m.modUri == None
    && CleanHeaders(m.headers) && |m.headers| <= MAX_HEADERS
  }

  /** A parsed request-URI lies inside its start line. */
  lemma {:induction false} ParsedUriFits(m: Message)
    requires m.start == ParseStart(m.startLine)
    ensures UriFits(m)
  {
  }

  /** Parsing a printed message recovers the printed start line, the live headers in order and the body. */
  lemma {:induction false} ReadPrinted(m: Message)
    requires UriFits(m) && CleanValue(StartText(m)) && CleanHeaders(m.headers) && |m.headers| <= MAX_HEADERS
    ensures ParseMessage(Print(m)) ==
            Message(StartText(m), ParseStart(StartText(m)), Compact(m.headers), m.body, None)
  {
    hide ParseStart, StartText;
    var start := StartText(m);
    PrintSplits(start, HeaderLines(m.headers), m.body);
    CutLine(start + "\r", HeaderLines(m.headers) + "\r\n" + m.body);
    TrimPadded("", start, "\r", true);
    assert "" + start + "\r" == start + "\r";
    ReadHeaderLines(m.headers, m.body, []);
    assert [] + Compact(m.headers) == Compact(m.headers);
  }

  /** A clean message is recovered whole, with tombstones dropped. */
  lemma {:induction false} ParsePrint(m: Message)
    requires Clean(m)
    ensures UriFits(m) && ParseMessage(Print(m)) == m.(headers := Compact(m.headers))
  {
    hide ParseStart;
    ParsedUriFits(m);
    ReadPrinted(m);
  }

  lemma {:induction false} PrintSplits(start: string, lines: string, body: string)
    ensures start + "\r\n" + lines + "\r\n" + body == (start + "\r") + "\n" + (lines + "\r\n" + body)
  {
  }

  // ---- what the parser produces --------------------------------------------

  lemma {:induction false} LineHasNoNewline(s: string)
    ensures NoNewline(FirstLine(s))
  {
  }

  lemma {:induction false} TrimClean(s: string)
    requires NoNewline(s)
    ensures CleanValue(Trim(s, true)) && (NoColon(s) ==> CleanName(Trim(s, true)))
  {
    TrimIsTrimmed(s, true);
    var n := LeadLen(s);
    assert forall k :: 0 <= k < |Trim(s, true)| ==> Trim(s, true)[k] == s[n + k];
  }

  lemma {:induction false} AddParsedClean(headers: seq<Header>, line: string)
    requires CleanHeaders(headers) && |headers| <= MAX_HEADERS && NoNewline(line)
    ensures CleanHeaders(AddParsed(headers, line)) && |AddParsed(headers, line)| <= MAX_HEADERS
  {
    hide Trim;
    var colon := IndexOf(line, ':');
    if colon < |line| {
      TrimClean(line[..colon]);
      TrimClean(line[colon + 1..]);
    }
  }

  lemma {:induction false} ParseFieldsClean(s: string, headers: seq<Header>)
    requires CleanHeaders(headers) && |headers| <= MAX_HEADERS
    ensures CleanHeaders(ParseFields(s, headers).headers) && |ParseFields(s, headers).headers| <= MAX_HEADERS
    ensures NoTombstones(headers) ==> NoTombstones(ParseFields(s, headers).headers)
    decreases |s|
  {
    if s != "" && Trim(FirstLine(s), true) != "" {
      LineHasNoNewline(s);
      AddParsedClean(headers, FirstLine(s));
      ParseFieldsClean(AfterLine(s), AddParsed(headers, FirstLine(s)));
    }
  }

  predicate NoTombstones(headers: seq<Header>) {
    forall k :: 0 <= k < |headers| ==> !headers[k].removed
  }

  lemma {:induction false} CompactLive(headers: seq<Header>)
    requires NoTombstones(headers)
    ensures Compact(headers) == headers
  {
    if headers != [] {
      assert !headers[0].removed;
      CompactLive(headers[1..]);
    }
  }

  /** Whatever the packet, what is parsed from it is clean. */
  lemma {:induction false} ParsedIsClean(raw: string)
    ensures Clean(ParseMessage(raw)) && NoTombstones(ParseMessage(raw).headers)
  {
    if raw == "" {
      EmptyStart();
    } else {
      LineHasNoNewline(raw);
      TrimClean(FirstLine(raw));
      ParseFieldsClean(AfterLine(raw), []);
    }
  }

  lemma {:induction false} EmptyStart()
    ensures ParseStart("") == NO_START
  {
    FirstIs("", ' ', 0);
  }

  /** The bytes a packet is forwarded as when no rule changes it. */
  function Normalise(raw: string): string {
    ParsedIsClean(raw);
    ParsedUriFits(ParseMessage(raw));
    Print(ParseMessage(raw))
  }

  /** Normalisation is idempotent on every packet, malformed ones included. */
  lemma {:induction false} NormaliseTwice(raw: string)
    ensures ParseMessage(Normalise(raw)) == ParseMessage(raw)
    ensures Normalise(Normalise(raw)) == Normalise(raw)
  {
    ParsedIsClean(raw);
    ParsePrint(ParseMessage(raw));
    CompactLive(ParseMessage(raw).headers);
  }

  // ---- runs of header operations -------------------------------------------

  datatype Op = Set(name: string, value: string) | Add(name: string, value: string) | Del(name: string)

  predicate CleanOp(op: Op) {
    match op
    case Set(n, v) => CleanName(n) && CleanValue(v)
    case Add(n, v) => CleanName(n) && CleanValue(v)
    case Del(_) => true
  }

  function Apply(m: Message, used: nat, op: Op): Write {
    match op
    case Set(n, v) => SetHeader(m, used, n, v)
    case Add(n, v) => AddHeader(m, used, n, v)
    case Del(n) => Write(true, DeleteHeader(m, n), used)
  }

  /** The message after a run of operations, whether or not each one succeeded. */
  function Run(m: Message, used: nat, ops: seq<Op>): Message
    decreases |ops|
  {
    if ops == [] then m
    else
      var w := Apply(m, used, ops[0]);
      Run(w.msg, w.used, ops[1..])
  }

  lemma {:induction false} ApplyClean(m: Message, used: nat, op: Op)
    requires Clean(m) && CleanOp(op)
    ensures Clean(Apply(m, used, op).msg)
  {
    hide ParseStart;
  }

  lemma {:induction false} RunClean(m: Message, used: nat, ops: seq<Op>)
    requires Clean(m) && forall k :: 0 <= k < |ops| ==> CleanOp(ops[k])
    ensures Clean(Run(m, used, ops))
    decreases |ops|
  {
    if ops != [] {
      ApplyClean(m, used, ops[0]);
      RunClean(Apply(m, used, ops[0]).msg, Apply(m, used, ops[0]).used, ops[1..]);
    }
  }

  /**
   Parse undoes serialize: for any packet and any run of clean set, add and delete
   operations on it, parsing the printed result recovers the start line and everything
   derived from it, the live headers in order, and the body.
   */
  lemma {:induction false} ParsePrintAfterRun(raw: string, used: nat, ops: seq<Op>)
    requires forall k :: 0 <= k < |ops| ==> CleanOp(ops[k])
    ensures var m := Run(ParseMessage(raw), used, ops);
            UriFits(m) && ParseMessage(Print(m)) == m.(headers := Compact(m.headers))
  {
    ParsedIsClean(raw);
    RunClean(ParseMessage(raw), used, ops);
    ParsePrint(Run(ParseMessage(raw), used, ops));
  }
}
