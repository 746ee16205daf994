/**
 The SIP message as plain data: a start line, an ordered list of headers with
 tombstones, and a body; with the tolerant parser, the printer and the header
 operations as functions over it. Operations account for the arena bytes they use.
 */
module Message {
  import opened Text
  import opened Memory
  import opened Lowering
  import Uri

  const MAX_HEADERS: nat := 32

  datatype Header = Header(name: string, value: string, removed: bool)

  /** A piece of the start line and where it starts. */
  datatype Located = Located(off: nat, text: string)

  /** What the parser derives from the start line. */
  datatype Start = Start(
    isRequest: bool, verb: string, requestUri: Option<Located>, statusCode: nat, reason: string)

  datatype Message = Message(
    startLine: string, start: Start, headers: seq<Header>, body: string, modUri: Option<string>)

  // ---- parsing -------------------------------------------------------------

  function FirstLine(s: string): string {
    s[..IndexOf(s, '\n')]
  }

  function AfterLine(s: string): (r: string)
    ensures s != "" ==> |r| < |s|
  {
    var nl := IndexOf(s, '\n');
    if nl < |s| then s[nl + 1..] else ""
  }

  /** Digits accumulate modulo 2^32; other characters are skipped. */
  function CodeOf(s: string): nat {
    if s == "" then 0
    else
      var c := s[|s| - 1];
      var v := CodeOf(s[..|s| - 1]);
      if IsDigit(c) then (v * 10 + DigitValue(c)) % 0x1_0000_0000 else v
  }

  const NO_START := Start(true, "", None, 0, "")

  /** `t[from..]` up to the next space, or to the end. */
  function WordAt(t: string, from: nat): (w: string)
    requires from <= |t|
    ensures from + |w| <= |t| && w == t[from..from + |w|]
  {
    t[from..from + IndexOf(t[from..], ' ')]
  }

  function ParseStatus(t: string): Start {
    var sp := IndexOf(t, ' ');
    if sp == |t| then NO_START.(isRequest := false)
    else
      var code := WordAt(t, sp + 1);
      var end := sp + 1 + |code|;
      Start(false, "", None, CodeOf(code), if end < |t| then Trim(t[end + 1..], true) else "")
  }

  function ParseRequest(t: string): Start {
    var sp := IndexOf(t, ' ');
    if sp == |t| then NO_START
    else
      var word := WordAt(t, sp + 1);
      Start(true, t[..sp], Some(Located(sp + 1 + LeadLen(word), Trim(word, true))), 0, "")
  }

  function ParseStart(t: string): Start {
    if |t| >= 4 && t[..4] == "SIP/" then ParseStatus(t) else ParseRequest(t)
  }

  datatype Fields = Fields(headers: seq<Header>, body: string)

  function AddParsed(headers: seq<Header>, line: string): seq<Header> {
    var colon := IndexOf(line, ':');
    if colon == |line| || |headers| >= MAX_HEADERS then headers
    else headers + [Header(Trim(line[..colon], true), Trim(line[colon + 1..], true), false)]
  }

  /** Header lines up to a blank line, then the body; lines without a colon are skipped. */
  function ParseFields(s: string, headers: seq<Header>): Fields
    decreases |s|
  {
    if s == "" then Fields(headers, "")
    else if Trim(FirstLine(s), true) == "" then Fields(headers, AfterLine(s))
    else ParseFields(AfterLine(s), AddParsed(headers, FirstLine(s)))
  }

  function ParseMessage(raw: string): Message {
    if raw == "" then Message("", NO_START, [], "", None)
    else
      var t := Trim(FirstLine(raw), true);
      var f := ParseFields(AfterLine(raw), []);
      Message(t, ParseStart(t), f.headers, f.body, None)
  }

  // ---- printing ------------------------------------------------------------

  function HeaderLine(h: Header): string {
    if h.removed then "" else h.name + ": " + h.value + "\r\n"
  }

  function HeaderLines(headers: seq<Header>): string {
    if headers == [] then "" else HeaderLine(headers[0]) + HeaderLines(headers[1..])
  }

  predicate UriFits(m: Message) {
    m.start.requestUri.Some? ==>
      m.start.requestUri.value.off + |m.start.requestUri.value.text| <= |m.startLine|
  }

  /** The start line, with an overriding request-URI spliced over the original one. */
  function StartText(m: Message): string
    requires UriFits(m)
  {
    if m.start.isRequest && m.modUri.Some? && m.start.requestUri.Some? then
      var u := m.start.requestUri.value;
      m.startLine[..u.off] + m.modUri.value + m.startLine[u.off + |u.text|..]
    else m.startLine
  }

  function Print(m: Message): string
    requires UriFits(m)
  {
    StartText(m) + "\r\n" + HeaderLines(m.headers) + "\r\n" + m.body
  }

  // ---- header operations ---------------------------------------------------

  predicate Matches(h: Header, name: string) {
    !h.removed && IEquals(h.name, name)
  }

  /** Index of the first live header of that name, or the length of the list. */
  function Find(headers: seq<Header>, name: string): (i: nat)
    ensures i <= |headers|
    ensures i < |headers| ==> Matches(headers[i], name)
    ensures forall k :: 0 <= k < i ==> !Matches(headers[k], name)
  {
    if headers == [] || Matches(headers[0], name) then 0 else 1 + Find(headers[1..], name)
  }

  function GetHeader(m: Message, name: string): string {
    var i := Find(m.headers, name);
    if i < |m.headers| then m.headers[i].value else ""
  }

  /** Outcome of a writing operation: success, the message, and the arena bytes in use. */
  datatype Write = Write(ok: bool, msg: Message, used: nat)

  predicate Dups(used: nat, s: string) {
    s == "" || Fits(used, |s|)
  }

  function AddHeader(m: Message, used: nat, name: string, value: string): Write {
    if |m.headers| >= MAX_HEADERS || !Dups(used, name) then Write(false, m, used)
    else if !Dups(used + |name|, value) then Write(false, m, used + |name|)
    else Write(true, m.(headers := m.headers + [Header(name, value, false)]), used + |name| + |value|)
  }

  function WithValue(m: Message, i: nat, value: string): Message
    requires i < |m.headers|
  {
    m.(headers := m.headers[i := m.headers[i].(value := value)])
  }

  function SetHeader(m: Message, used: nat, name: string, value: string): Write {
    if !Dups(used, value) then Write(false, m, used)
    else
      var i := Find(m.headers, name);
      if i < |m.headers| then Write(true, WithValue(m, i, value), used + |value|)
      else AddHeader(m, used + |value|, name, value)
  }

  function Tombstoned(headers: seq<Header>, name: string): (r: seq<Header>)
    ensures |r| == |headers|
    ensures forall k :: 0 <= k < |r| ==> r[k] == headers[k].(removed := headers[k].removed || Matches(headers[k], name))
  {
    seq(|headers|, k requires 0 <= k < |headers| =>
      headers[k].(removed := headers[k].removed || Matches(headers[k], name)))
  }

  function DeleteHeader(m: Message, name: string): Message {
    m.(headers := Tombstoned(m.headers, name))
  }

  // ---- URI component fields ------------------------------------------------

  const FIELD_MAX: nat := 6

  /** Header holding a field (None for the request-URI) and the URI element it names. */
  datatype FieldRef = FieldRef(header: Option<string>, element: nat)

  function FieldRefOf(field: nat): FieldRef {
    if field == 0 then FieldRef(None, URI_USER)
    else if field == 1 then FieldRef(None, URI_HOST)
    else if field == 2 then FieldRef(Some("From"), URI_USER)
    else if field == 3 then FieldRef(Some("From"), URI_HOST)
    else if field == 4 then FieldRef(Some("To"), URI_USER)
    else if field == 5 then FieldRef(Some("To"), URI_HOST)
    else FieldRef(None, URI_WHOLE)
  }

  function CurrentUri(m: Message): string {
    if m.modUri.Some? then m.modUri.value
    else if m.start.requestUri.Some? then m.start.requestUri.value.text
    else ""
  }

  function GetField(m: Message, field: nat): string {
    if field >= FIELD_MAX then ""
    else
      var r := FieldRefOf(field);
      Uri.Component(if r.header.Some? then GetHeader(m, r.header.value) else CurrentUri(m), r.element)
  }

  function SetField(m: Message, used: nat, field: nat, text: string): Write {
    if field >= FIELD_MAX then Write(false, m, used)
    else
      var r := FieldRefOf(field);
      if r.header.None? then SetUri(m, used, Uri.Rebuild(CurrentUri(m), r.element, text))
      else SetUriHeader(m, used, r.header.value, r.element, text)
  }

  function SetUri(m: Message, used: nat, uri: string): Write {
    if Fits(used, |uri|) then Write(true, m.(modUri := Some(uri)), used + |uri|) else Write(false, m, used)
  }

  function SetUriHeader(m: Message, used: nat, name: string, element: nat, text: string): Write {
    var i := Find(m.headers, name);
    if i == |m.headers| then Write(false, m, used)
    else
      var value := Uri.Rebuild(m.headers[i].value, element, text);
      if Fits(used, |value|) then Write(true, WithValue(m, i, value), used + |value|) else Write(false, m, used)
  }

  // ---- the plain list of headers -------------------------------------------

  type Pair = (string, string)

  /** The live headers in order: what the message means to a reader. */
  function Live(headers: seq<Header>): seq<Pair> {
    if headers == [] then []
    else if headers[0].removed then Live(headers[1..])
    else [(headers[0].name, headers[0].value)] + Live(headers[1..])
  }

  function ListSet(list: seq<Pair>, name: string, value: string): seq<Pair> {
    if list == [] then [(name, value)]
    else if IEquals(list[0].0, name) then [(list[0].0, value)] + list[1..]
    else [list[0]] + ListSet(list[1..], name, value)
  }

  function ListDelete(list: seq<Pair>, name: string): seq<Pair> {
    if list == [] then []
    else if IEquals(list[0].0, name) then ListDelete(list[1..], name)
    else [list[0]] + ListDelete(list[1..], name)
  }

  function ListGet(list: seq<Pair>, name: string): string {
    if list == [] then ""
    else if IEquals(list[0].0, name) then list[0].1
    else ListGet(list[1..], name)
  }

  /** The first live header, when the first header is live. */
  lemma {:induction false} LiveFirst(headers: seq<Header>)
    requires headers != [] && !headers[0].removed
    ensures Live(headers) != [] && Live(headers)[0] == (headers[0].name, headers[0].value)
    ensures Live(headers)[1..] == Live(headers[1..])
  {
  }

  lemma {:induction false} LiveAppend(a: seq<Header>, b: seq<Header>)
    ensures Live(a + b) == Live(a) + Live(b)
  {
    if a == [] {
      assert a + b == b;
    } else {
      LiveAppend(a[1..], b);
      assert (a + b)[0] == a[0] && (a + b)[1..] == a[1..] + b;
    }
  }

  /** Reading a header reads the list of live headers. */
  lemma {:induction false} GetIsListGet(m: Message, name: string)
    ensures GetHeader(m, name) == ListGet(Live(m.headers), name)
    decreases |m.headers|
  {
    if m.headers != [] {
      GetIsListGet(m.(headers := m.headers[1..]), name);
      if !m.headers[0].removed {
        LiveFirst(m.headers);
      }
    }
  }

  lemma {:induction false} ReplaceFirstIsListSet(headers: seq<Header>, name: string, value: string)
    ensures var i := Find(headers, name);
            Live(if i < |headers| then headers[i := headers[i].(value := value)]
                 else headers + [Header(name, value, false)]) == ListSet(Live(headers), name, value)
  {
    if headers != [] && !headers[0].removed {
      LiveFirst(headers);
    }
    if headers != [] && !Matches(headers[0], name) {
      ReplaceFirstIsListSet(headers[1..], name, value);
      var i := Find(headers[1..], name);
      var tail := if i < |headers| - 1 then headers[1..][i := headers[1..][i].(value := value)]
                  else headers[1..] + [Header(name, value, false)];
      var all := if i < |headers| - 1 then headers[i + 1 := headers[i + 1].(value := value)]
                 else headers + [Header(name, value, false)];
      assert all[1..] == tail && all[0] == headers[0];
    } else if headers != [] {
      assert headers[0 := headers[0].(value := value)][1..] == headers[1..];
      assert Live(headers)[1..] == Live(headers[1..]);
    }
  }

  /**
   Setting refines replace-first-or-append on the plain list: success performs exactly that
   update and failure, by arena or by header count, leaves the message as it was.
   */
  lemma {:induction false} SetRefinesList(m: Message, used: nat, name: string, value: string)
    ensures var w := SetHeader(m, used, name, value);
            if w.ok then Live(w.msg.headers) == ListSet(Live(m.headers), name, value) && w.msg.(headers := m.headers) == m
            else w.msg == m
  {
    ReplaceFirstIsListSet(m.headers, name, value);
  }

  lemma {:induction false} AddRefinesList(m: Message, used: nat, name: string, value: string)
    ensures var w := AddHeader(m, used, name, value);
            if w.ok then Live(w.msg.headers) == Live(m.headers) + [(name, value)] && w.msg.(headers := m.headers) == m
            else w.msg == m
  {
    LiveAppend(m.headers, [Header(name, value, false)]);
    assert Live([Header(name, value, false)]) == [(name, value)];
  }

  lemma {:induction false} DeleteRefinesList(headers: seq<Header>, name: string)
    ensures Live(Tombstoned(headers, name)) == ListDelete(Live(headers), name)
  {
    if headers != [] {
      DeleteRefinesList(headers[1..], name);
      if !headers[0].removed {
        LiveFirst(headers);
      }
      assert Tombstoned(headers, name)[1..] == Tombstoned(headers[1..], name);
    }
  }

  /** On the plain list: a set name reads back, other names do not notice. */
  lemma {:induction false} ListGetSet(list: seq<Pair>, name: string, value: string, other: string)
    ensures ListGet(ListSet(list, name, value), other) ==
            if IEquals(name, other) then value else ListGet(list, other)
  {
    if list != [] && !IEquals(list[0].0, name) {
      ListGetSet(list[1..], name, value, other);
      assert ([list[0]] + ListSet(list[1..], name, value))[1..] == ListSet(list[1..], name, value);
    }
  }

  lemma {:induction false} ListGetDelete(list: seq<Pair>, name: string, other: string)
    ensures ListGet(ListDelete(list, name), other) == if IEquals(name, other) then "" else ListGet(list, other)
  {
    if list != [] {
      ListGetDelete(list[1..], name, other);
      assert ([list[0]] + ListDelete(list[1..], name))[1..] == ListDelete(list[1..], name);
    }
  }

  /** A header that was set reads back, whatever its spelling; every other name reads as before. */
  lemma {:induction false} SetGet(m: Message, used: nat, name: string, value: string, other: string)
    requires SetHeader(m, used, name, value).ok
    ensures GetHeader(SetHeader(m, used, name, value).msg, other) ==
            if IEquals(name, other) then value else GetHeader(m, other)
  {
    SetRefinesList(m, used, name, value);
    GetIsListGet(SetHeader(m, used, name, value).msg, other);
    GetIsListGet(m, other);
    ListGetSet(Live(m.headers), name, value, other);
  }

  lemma {:induction false} DeleteGet(m: Message, name: string, other: string)
    ensures GetHeader(DeleteHeader(m, name), other) == if IEquals(name, other) then "" else GetHeader(m, other)
  {
    DeleteRefinesList(m.headers, name);
    GetIsListGet(DeleteHeader(m, name), other);
    GetIsListGet(m, other);
    ListGetDelete(Live(m.headers), name, other);
  }
}
