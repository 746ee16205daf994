/**
 The zero-copy message: every text is a view into the immutable packet or into the
 arena. Each operation is proved to act on the plain message exactly as the function
 of the same name in module `Message`, and to leave every byte already handed out alone.
 */
module SipMessage {
  import opened Text
  import opened Memory
  import M = Message
  import Uri

  datatype Slot = Slot(name: Slice, value: Slice, removed: bool) {
    predicate InBounds(packetLen: nat, used: nat) {
      name.InBounds(packetLen, used) && value.InBounds(packetLen, used)
    }

    function Read(packet: string, bytes: string): M.Header
      requires InBounds(|packet|, |bytes|)
    {
      M.Header(name.Read(packet, bytes), value.Read(packet, bytes), removed)
    }
  }

  const EMPTY_SLOT := Slot(Null, Null, false)

  predicate SlotsInBounds(slots: seq<Slot>, packetLen: nat, used: nat) {
    forall k :: 0 <= k < |slots| ==> slots[k].InBounds(packetLen, used)
  }

  function ReadSlots(slots: seq<Slot>, packet: string, bytes: string): (r: seq<M.Header>)
    requires SlotsInBounds(slots, |packet|, |bytes|)
    ensures |r| == |slots|
    ensures forall k :: 0 <= k < |r| ==> r[k] == slots[k].Read(packet, bytes)
  {
    seq(|slots|, k requires 0 <= k < |slots| => slots[k].Read(packet, bytes))
  }

  lemma {:induction false} ReadSlotsStable(slots: seq<Slot>, packet: string, bytes: string, more: string)
    requires SlotsInBounds(slots, |packet|, |bytes|)
    ensures SlotsInBounds(slots, |packet|, |bytes + more|)
    ensures ReadSlots(slots, packet, bytes + more) == ReadSlots(slots, packet, bytes)
  {
    forall k | 0 <= k < |slots|
      ensures slots[k].InBounds(|packet|, |bytes + more|)
      ensures slots[k].Read(packet, bytes + more) == slots[k].Read(packet, bytes)
    {
      assert slots[k].InBounds(|packet|, |bytes|);
      ReadStable(slots[k].name, packet, bytes, more);
      ReadStable(slots[k].value, packet, bytes, more);
    }
  }

  /** The views cut out of the start line. */
  datatype StartViews = StartViews(
    isRequest: bool, verb: Slice, requestUri: Slice, statusCode: nat, reasonPhrase: Slice)

  const NO_START := StartViews(true, Null, Null, 0, Null)

  /** All views of a message, as a value. */
  datatype Views = Views(
    startLine: Slice, start: StartViews, slots: seq<Slot>, body: Slice, modRequestUri: Slice)
  {
    predicate InPacket(v: Slice, packetLen: nat) {
      v.InBounds(packetLen, 0)
    }

    predicate StartInBounds(packetLen: nat) {
      && InPacket(startLine, packetLen) && InPacket(start.verb, packetLen)
      && InPacket(start.requestUri, packetLen) && InPacket(start.reasonPhrase, packetLen)
      && (start.requestUri.View? ==>
            startLine.View? && startLine.off <= start.requestUri.off &&
            start.requestUri.off + start.requestUri.len <= startLine.off + startLine.len)
    }

    predicate InBounds(packetLen: nat, used: nat) {
      && StartInBounds(packetLen) && InPacket(body, packetLen)
      && SlotsInBounds(slots, packetLen, used) && modRequestUri.InBounds(packetLen, used)
    }

    function PlainStart(packet: string): M.Start
      requires StartInBounds(|packet|)
    {
      M.Start(
        start.isRequest, start.verb.Read(packet, ""),
        if start.requestUri.View?
        then Some(M.Located(start.requestUri.off - startLine.off, start.requestUri.Read(packet, "")))
        else None,
        start.statusCode, start.reasonPhrase.Read(packet, ""))
    }

    /** The plain message seen through the views. */
    function Plain(packet: string, bytes: string): M.Message
      requires InBounds(|packet|, |bytes|)
    {
      M.Message(
        startLine.Read(packet, ""), PlainStart(packet), ReadSlots(slots, packet, bytes), body.Read(packet, ""),
        if modRequestUri.View? then Some(modRequestUri.Read(packet, bytes)) else None)
    }
  }

  /** Growth of the arena changes nothing the message shows. */
  lemma {:induction false} PlainStable(v: Views, packet: string, bytes: string, more: string)
    requires v.InBounds(|packet|, |bytes|)
    ensures v.InBounds(|packet|, |bytes + more|) && v.Plain(packet, bytes + more) == v.Plain(packet, bytes)
  {
    ReadSlotsStable(v.slots, packet, bytes, more);
    ReadStable(v.modRequestUri, packet, bytes, more);
  }

  // ---- cutting the packet --------------------------------------------------

  /** The part of `packet[lo..hi]` left after trimming. */
  function TrimView(packet: string, lo: nat, hi: nat): (v: Slice)
    requires lo <= hi <= |packet|
    ensures v.View? && v.home == Packet && v.off == lo + LeadLen(packet[lo..hi]) && v.off + v.len <= hi
    ensures v.Read(packet, "") == Trim(packet[lo..hi], true)
  {
    var line := packet[lo..hi];
    SliceOfSlice(packet, lo, hi, LeadLen(line), KeepLen(line[LeadLen(line)..], true));
    View(Packet, lo + LeadLen(line), KeepLen(line[LeadLen(line)..], true))
  }

  lemma {:induction false} SliceOfSlice(s: string, lo: nat, hi: nat, n: nat, k: nat)
    requires lo <= hi <= |s| && n + k <= hi - lo
    ensures s[lo + n..lo + n + k] == s[lo..hi][n..][..k]
  {
  }

  /** Reads the start line `t` seen through `line`: a status line after `SIP/`, else a request line. */
  method ReadStart(packet: string, line: Slice) returns (s: StartViews)
    requires line.View? && line.home == Packet && line.InBounds(|packet|, 0)
    ensures var v := Views(line, s, [], Null, Null);
            v.StartInBounds(|packet|) && v.PlainStart(packet) == M.ParseStart(line.Read(packet, ""))
  {
    var t := line.Read(packet, "");
    if |t| >= 4 && t[..4] == "SIP/" {
      s := ReadStatus(packet, line, t);
    } else {
      s := ReadRequest(packet, line, t);
    }
  }

  method ReadStatus(packet: string, line: Slice, t: string) returns (s: StartViews)
    requires line.View? && line.home == Packet && line.InBounds(|packet|, 0) && t == line.Read(packet, "")
    ensures var v := Views(line, s, [], Null, Null);
            v.StartInBounds(|packet|) && v.PlainStart(packet) == M.ParseStatus(t)
  {
    hide IndexOf, Trim, TrimView, LeadLen, KeepLen, M.CodeOf, M.WordAt;
    s := NO_START.(isRequest := false);
    var sp := IndexOf(t, ' ');
    if sp < |t| {
      var code := M.WordAt(t, sp + 1);
      var end := sp + 1 + |code|;
      var status := ReadCode(code);
      s := s.(statusCode := status);
      if end < |t| {
        InView(packet, line, t, end + 1, |t|);
        s := s.(reasonPhrase := TrimView(packet, line.off + end + 1, line.off + |t|));
      }
    }
  }

  method ReadRequest(packet: string, line: Slice, t: string) returns (s: StartViews)
    requires line.View? && line.home == Packet && line.InBounds(|packet|, 0) && t == line.Read(packet, "")
    ensures var v := Views(line, s, [], Null, Null);
            v.StartInBounds(|packet|) && v.PlainStart(packet) == M.ParseRequest(t)
  {
    hide IndexOf, Trim, TrimView, LeadLen, KeepLen, M.WordAt;
    s := NO_START;
    var sp := IndexOf(t, ' ');
    if sp < |t| {
      InView(packet, line, t, 0, sp);
      s := s.(verb := View(Packet, line.off, sp));
      var word := M.WordAt(t, sp + 1);
      InView(packet, line, t, sp + 1, sp + 1 + |word|);
      s := s.(requestUri := TrimView(packet, line.off + sp + 1, line.off + sp + 1 + |word|));
    }
  }

  /** A stretch of a packet view is a stretch of the packet. */
  lemma {:induction false} InView(packet: string, v: Slice, t: string, i: nat, j: nat)
    requires v.View? && v.home == Packet && v.InBounds(|packet|, 0) && t == v.Read(packet, "") && i <= j <= |t|
    ensures packet[v.off + i..v.off + j] == t[i..j]
  {
  }

  method ReadCode(s: string) returns (v: nat)
    ensures v == M.CodeOf(s)
  {
    v := 0;
    for i := 0 to |s|
      invariant v == M.CodeOf(s[..i])
    {
      assert s[..i + 1][..i] == s[..i];
      if IsDigit(s[i]) {
        v := (v * 10 + DigitValue(s[i])) % 0x1_0000_0000;
      }
    }
    assert s[..|s|] == s;
  }

  /** The name and value views of a header line, unless it has no colon. */
  method ReadField(packet: string, lo: nat, hi: nat) returns (r: Option<Slot>)
    requires lo <= hi <= |packet|
    ensures var line := packet[lo..hi]; var colon := IndexOf(line, ':');
            if colon == |line| then r.None?
            else r.Some? && r.value.InBounds(|packet|, 0) &&
                 r.value.Read(packet, "") == M.Header(Trim(line[..colon], true), Trim(line[colon + 1..], true), false)
  {
    var line := packet[lo..hi];
    var colon := IndexOf(line, ':');
    if colon == |line| { return None; }
    assert packet[lo..lo + colon] == line[..colon] && packet[lo + colon + 1..hi] == line[colon + 1..];
    return Some(Slot(TrimView(packet, lo, lo + colon), TrimView(packet, lo + colon + 1, hi), false));
  }

  function RestFrom(raw: string, pos: nat): string {
    if pos < |raw| then raw[pos..] else ""
  }

  lemma {:induction false} LineAt(raw: string, lo: nat, hi: nat)
    requires lo < |raw| && hi == lo + IndexOf(raw[lo..], '\n')
    ensures M.FirstLine(raw[lo..]) == raw[lo..hi] && M.AfterLine(raw[lo..]) == RestFrom(raw, hi + 1)
    ensures lo == 0 ==> raw[lo..] == raw
  {
    if hi < |raw| {
      assert raw[lo..][hi - lo + 1..] == raw[hi + 1..];
    }
  }

  /** One line of the header block, read in place. */
  lemma {:induction false} FieldsStep(raw: string, lo: nat, hi: nat, headers: seq<M.Header>)
    requires lo < |raw| && hi == lo + IndexOf(raw[lo..], '\n')
    ensures lo <= hi <= |raw| && RestFrom(raw, lo) == raw[lo..]
    ensures M.ParseFields(raw[lo..], headers) ==
            if Trim(raw[lo..hi], true) == "" then M.Fields(headers, RestFrom(raw, hi + 1))
            else M.ParseFields(RestFrom(raw, hi + 1), M.AddParsed(headers, raw[lo..hi]))
    ensures lo == 0 ==> raw[lo..hi] == M.FirstLine(raw) && RestFrom(raw, hi + 1) == M.AfterLine(raw)
  {
    LineAt(raw, lo, hi);
  }

  /** The start line of the packet has been read. */
  ghost predicate StartDone(raw: string, v: Views) {
    v.StartInBounds(|raw|) &&
    var t := Trim(M.FirstLine(raw), true);
    v.startLine.Read(raw, "") == t && v.PlainStart(raw) == M.ParseStart(t)
  }

  /** The packet has been read up to `pos`; what remains completes the parsed message. */
  ghost predicate Reading(raw: string, pos: nat, first: bool, v: Views) {
    && v.modRequestUri.Null? && v.body.Null? && SlotsInBounds(v.slots, |raw|, 0) && |v.slots| <= M.MAX_HEADERS
    && (if first then pos == 0 && v == Views(Null, NO_START, [], Null, Null)
        else raw != "" && StartDone(raw, v) &&
             M.ParseFields(RestFrom(raw, pos), ReadSlots(v.slots, raw, "")) == M.ParseFields(M.AfterLine(raw), []))
  }

  lemma {:induction false} ReadingStart(raw: string, hi: nat, v: Views, line: Slice, s: StartViews)
    requires Reading(raw, 0, true, v) && raw != "" && hi == 0 + IndexOf(raw[0..], '\n') && line == TrimView(raw, 0, hi)
    requires var w := Views(line, s, [], Null, Null);
             w.StartInBounds(|raw|) && w.PlainStart(raw) == M.ParseStart(line.Read(raw, ""))
    ensures Reading(raw, hi + 1, false, v.(startLine := line, start := s))
  {
    hide M.ParseStart, M.ParseFields, TrimView;
    FieldsStep(raw, 0, hi, []);
    assert ReadSlots([], raw, "") == [];
  }

  lemma {:induction false} ReadingField(raw: string, lo: nat, hi: nat, v: Views, slots: seq<Slot>)
    requires Reading(raw, lo, false, v) && lo < |raw| && hi == lo + IndexOf(raw[lo..], '\n')
    requires Trim(raw[lo..hi], true) != "" && SlotsInBounds(slots, |raw|, 0) && |slots| <= M.MAX_HEADERS
    requires ReadSlots(slots, raw, "") == M.AddParsed(ReadSlots(v.slots, raw, ""), raw[lo..hi])
    ensures Reading(raw, hi + 1, false, v.(slots := slots))
  {
    hide M.ParseStart, M.ParseFields, M.AddParsed, Trim, IndexOf;
    FieldsStep(raw, lo, hi, ReadSlots(v.slots, raw, ""));
  }

  /** A blank line, or the end of the packet, completes the message. */
  lemma {:induction false} ReadingDone(raw: string, lo: nat, hi: nat, first: bool, v: Views, body: Slice)
    requires Reading(raw, lo, first, v) && (first ==> raw == "")
    requires
      if lo < |raw| then
        hi == lo + IndexOf(raw[lo..], '\n') && Trim(raw[lo..hi], true) == "" &&
        body == (if hi + 1 <= |raw| then View(Packet, hi + 1, |raw| - hi - 1) else Null)
      else body.Null?
    ensures v.(body := body).InBounds(|raw|, 0) && v.(body := body).Plain(raw, "") == M.ParseMessage(raw)
  {
    hide M.ParseStart, M.ParseFields, M.ParseMessage, IndexOf, Trim;
    if lo < |raw| {
      FieldsStep(raw, lo, hi, ReadSlots(v.slots, raw, ""));
      assert hi + 1 <= |raw| ==> raw[hi + 1..|raw|] == raw[hi + 1..];
    } else {
      EmptyFields(ReadSlots(v.slots, raw, ""));
    }
    ParseParts(raw, v.(body := body));
  }

  lemma {:induction false} EmptyFields(headers: seq<M.Header>)
    ensures M.ParseFields("", headers) == M.Fields(headers, "")
  {
  }

  lemma {:induction false} ParseParts(raw: string, v: Views)
    requires v.InBounds(|raw|, 0) && v.modRequestUri.Null?
    requires raw == "" ==> v == Views(Null, NO_START, [], Null, Null)
    requires raw != "" ==>
      StartDone(raw, v) &&
      M.ParseFields(M.AfterLine(raw), []) == M.Fields(ReadSlots(v.slots, raw, ""), v.body.Read(raw, ""))
    ensures v.Plain(raw, "") == M.ParseMessage(raw)
  {
    hide M.ParseStart, M.ParseFields, Trim;
  }

  lemma {:induction false} ReadSlotsAppend(slots: seq<Slot>, s: Slot, packet: string, bytes: string)
    requires SlotsInBounds(slots, |packet|, |bytes|) && s.InBounds(|packet|, |bytes|)
    ensures SlotsInBounds(slots + [s], |packet|, |bytes|)
    ensures ReadSlots(slots + [s], packet, bytes) == ReadSlots(slots, packet, bytes) + [s.Read(packet, bytes)]
  {
  }

  lemma {:induction false} ReadSlotsUpdate(slots: seq<Slot>, i: nat, s: Slot, packet: string, bytes: string)
    requires SlotsInBounds(slots, |packet|, |bytes|) && s.InBounds(|packet|, |bytes|) && i < |slots|
    ensures SlotsInBounds(slots[i := s], |packet|, |bytes|)
    ensures ReadSlots(slots[i := s], packet, bytes) == ReadSlots(slots, packet, bytes)[i := s.Read(packet, bytes)]
  {
  }

  class HmrSipMsg {
    const raw: string
    const headers: array<Slot>
    var numHeaders: nat
    var startLine: Slice
    var start: StartViews
    var body: Slice
    var modRequestUri: Slice

    ghost function Look(): Views
      requires numHeaders <= headers.Length
      reads this, headers
    {
      Views(startLine, start, headers[..numHeaders], body, modRequestUri)
    }

    /** Every view is inside the packet or inside the first `used` arena bytes. */
    ghost predicate Valid(used: nat)
      reads this, headers
    {
      headers.Length == M.MAX_HEADERS && numHeaders <= M.MAX_HEADERS && Look().InBounds(|raw|, used)
    }

    /** The plain message, given the arena bytes. */
    ghost function Plain(bytes: string): (m: M.Message)
      requires Valid(|bytes|)
      reads this, headers
      ensures |m.headers| == numHeaders
    {
      Look().Plain(raw, bytes)
    }

    // ---- parsing -----------------------------------------------------------

    constructor Parse(raw: string)
      ensures this.raw == raw && fresh(headers)
      ensures Valid(0) && Plain("") == M.ParseMessage(raw)
    {
      this.raw := raw;
      headers := new Slot[M.MAX_HEADERS](_ => EMPTY_SLOT);
      numHeaders := 0;
      startLine, start, body, modRequestUri := Null, NO_START, Null, Null;
      new;
      ReadPacket();
    }

    method ReadPacket()
      requires headers.Length == M.MAX_HEADERS && numHeaders == 0
      requires startLine.Null? && start == NO_START && body.Null? && modRequestUri.Null?
      modifies this, headers
      ensures Valid(0) && Plain("") == M.ParseMessage(raw)
    {
      hide Reading, TrimView, IndexOf, Trim, M.ParseMessage, M.ParseStart, M.AddParsed;
      var pos, first := 0, true;
      NothingRead(raw, Look());
      while pos < |raw|
        invariant headers.Length == M.MAX_HEADERS && numHeaders <= M.MAX_HEADERS && (first ==> pos == 0)
        invariant SlotsInBounds(headers[..numHeaders], |raw|, 0) && body.Null?
        invariant Reading(raw, pos, first, Look())
        decreases |raw| + 1 - pos
      {
        var lo, hi := pos, pos + IndexOf(raw[pos..], '\n');
        ghost var before := Look();
        pos := hi + 1;
        if first {
          first := false;
          startLine := TrimView(raw, lo, hi);
          start := ReadStart(raw, startLine);
          ReadingStart(raw, hi, before, startLine, start);
        } else if Trim(raw[lo..hi], true) == "" {
          if pos <= |raw| {
            body := View(Packet, pos, |raw| - pos);
          }
          ReadingDone(raw, lo, hi, false, before, body);
          return;
        } else {
          AddField(lo, hi);
          ReadingField(raw, lo, hi, before, headers[..numHeaders]);
        }
      }
      ReadingDone(raw, pos, pos, first, Look(), Null);
    }

    /** Adds the header of one line; a line without a colon, or past the 32nd header, is dropped. */
    method AddField(lo: nat, hi: nat)
      requires lo <= hi <= |raw| && headers.Length == M.MAX_HEADERS && numHeaders <= M.MAX_HEADERS
      requires SlotsInBounds(headers[..numHeaders], |raw|, 0)
      modifies this`numHeaders, headers
      ensures numHeaders <= M.MAX_HEADERS && SlotsInBounds(headers[..numHeaders], |raw|, 0)
      ensures ReadSlots(headers[..numHeaders], raw, "") ==
              M.AddParsed(old(ReadSlots(headers[..numHeaders], raw, "")), raw[lo..hi])
    {
      var field := ReadField(raw, lo, hi);
      if field.Some? && numHeaders < M.MAX_HEADERS {
        ReadSlotsAppend(headers[..numHeaders], field.value, raw, "");
        Append(field.value);
      }
    }

    // ---- header operations -------------------------------------------------

    /** Index of the first live header of that name, or -1. */
    method Find(name: string, arena: HmrArena) returns (i: int)
      requires arena.Valid() && Valid(arena.used)
      ensures var hs := Plain(arena.Bytes()).headers; var f := M.Find(hs, name); i == (if f < |hs| then f else -1) && i < numHeaders
    {
      ghost var hs := ReadSlots(headers[..numHeaders], raw, arena.Bytes());
      for k := 0 to numHeaders
        invariant forall j :: 0 <= j < k ==> !M.Matches(hs[j], name)
      {
        assert headers[..numHeaders][k].InBounds(|raw|, arena.used);
        assert hs[k] == headers[k].Read(raw, arena.Bytes());
        if !headers[k].removed && IEquals(headers[k].name.Read(raw, arena.Bytes()), name) {
          FindIs(hs, name, k);
          return k;
        }
      }
      FindIs(hs, name, numHeaders);
      return -1;
    }

    method GetHeader(name: string, arena: HmrArena) returns (v: Slice)
      requires arena.Valid() && Valid(arena.used)
      ensures v.InBounds(|raw|, arena.used)
      ensures v.Read(raw, arena.Bytes()) == M.GetHeader(Plain(arena.Bytes()), name)
    {
      var i := Find(name, arena);
      if i < 0 { return Null; }
      assert headers[..numHeaders][i].InBounds(|raw|, arena.used);
      return headers[i].value;
    }

    method SetValue(i: nat, value: Slice, arena: HmrArena)
      requires arena.Valid() && Valid(arena.used) && i < numHeaders && value.InBounds(|raw|, arena.used)
      modifies headers
      ensures Valid(arena.used)
      ensures Plain(arena.Bytes()) == M.WithValue(old(Plain(arena.Bytes())), i, value.Read(raw, arena.Bytes()))
    {
      ghost var before := headers[..numHeaders];
      assert before[i].InBounds(|raw|, arena.used);
      headers[i] := headers[i].(value := value);
      ReadSlotsUpdate(before, i, headers[i], raw, arena.Bytes());
      assert headers[..numHeaders] == before[i := headers[i]];
    }

    /** Copies a text into the arena; the message does not notice. */
    method Hold(s: string, arena: HmrArena) returns (r: Slice)
      requires arena.Valid() && Valid(arena.used)
      modifies arena`used, arena.buffer
      ensures arena.Valid() && Valid(arena.used) && Plain(arena.Bytes()) == old(Plain(arena.Bytes()))
      ensures r.Null? <==> !M.Dups(old(arena.used), s)
      ensures arena.Bytes() == old(arena.Bytes()) + if r.Null? then "" else s
      ensures r.InBounds(|raw|, arena.used) && (r.View? ==> r.Read(raw, arena.Bytes()) == s)
    {
      ghost var bytes := arena.Bytes();
      r := arena.Dup(s);
      PlainStable(Look(), raw, bytes, if r.Null? then "" else s);
    }

    /** Rewrites the first live match, or appends when there is none. */
    method SetHeader(name: string, value: string, arena: HmrArena) returns (ok: bool)
      requires arena.Valid() && Valid(arena.used)
      modifies this`numHeaders, headers, arena`used, arena.buffer
      ensures arena.Valid() && Valid(arena.used) && old(arena.Bytes()) <= arena.Bytes()
      ensures M.Write(ok, Plain(arena.Bytes()), arena.used) ==
              M.SetHeader(old(Plain(arena.Bytes())), old(arena.used), name, value)
    {
      hide Views.Plain, Views.InBounds, Slice.Read;
      var dup := Hold(value, arena);
      if dup.Null? { return false; }
      var i := Find(name, arena);
      if i >= 0 {
        SetValue(i, dup, arena);
        return true;
      }
      ok := AddHeader(name, value, arena);
    }

    method AddHeader(name: string, value: string, arena: HmrArena) returns (ok: bool)
      requires arena.Valid() && Valid(arena.used)
      modifies this`numHeaders, headers, arena`used, arena.buffer
      ensures arena.Valid() && Valid(arena.used) && old(arena.Bytes()) <= arena.Bytes()
      ensures M.Write(ok, Plain(arena.Bytes()), arena.used) ==
              M.AddHeader(old(Plain(arena.Bytes())), old(arena.used), name, value)
    {
      hide Slice.Read;
      if numHeaders >= M.MAX_HEADERS { return false; }
      var dn := Hold(name, arena);
      if dn.Null? { return false; }
      ghost var named := arena.Bytes();
      var dv := Hold(value, arena);
      if dv.Null? { return false; }
      ReadStable(dn, raw, named, value);
      AppendSlot(Slot(dn, dv, false), arena);
      return true;
    }

    method AppendSlot(s: Slot, arena: HmrArena)
      requires arena.Valid() && Valid(arena.used) && numHeaders < M.MAX_HEADERS && s.InBounds(|raw|, arena.used)
      modifies this`numHeaders, headers
      ensures Valid(arena.used)
      ensures Plain(arena.Bytes()) == old(Plain(arena.Bytes())).(
                headers := old(Plain(arena.Bytes())).headers + [s.Read(raw, arena.Bytes())])
    {
      ReadSlotsAppend(headers[..numHeaders], s, raw, arena.Bytes());
      Append(s);
    }

    /** Tombstones every live match; returns whether there was one. */
    method DeleteHeader(name: string, arena: HmrArena) returns (any: bool)
      requires arena.Valid() && Valid(arena.used)
      modifies headers
      ensures Valid(arena.used)
      ensures Plain(arena.Bytes()) == M.DeleteHeader(old(Plain(arena.Bytes())), name)
      ensures any <==> M.Find(old(Plain(arena.Bytes())).headers, name) < |old(Plain(arena.Bytes())).headers|
    {
      hide M.Matches, Slice.Read;
      any := false;
      ghost var hs := ReadSlots(headers[..numHeaders], raw, arena.Bytes());
      ghost var before := headers[..numHeaders];
      for k := 0 to numHeaders
        invariant forall j :: 0 <= j < k ==>
          headers[j] == before[j].(removed := before[j].removed || M.Matches(hs[j], name))
        invariant forall j :: k <= j < numHeaders ==> headers[j] == before[j]
        invariant any <==> exists j :: 0 <= j < k && M.Matches(hs[j], name)
      {
        assert before[k].InBounds(|raw|, arena.used) && hs[k] == before[k].Read(raw, arena.Bytes());
        SlotMatches(before[k], name, raw, arena.Bytes());
        if !headers[k].removed && IEquals(headers[k].name.Read(raw, arena.Bytes()), name) {
          headers[k] := headers[k].(removed := true);
          any := true;
        }
      }
      ReadTombstones(before, headers[..numHeaders], name, raw, arena.Bytes());
    }

    // ---- URI component fields ----------------------------------------------

    /** The override when set, else the original request-URI. */
    function CurrentUri(): Slice
      reads this
    {
      if modRequestUri.View? then modRequestUri else start.requestUri
    }

    lemma {:induction false} CurrentUriReads(bytes: string)
      requires Valid(|bytes|)
      ensures CurrentUri().InBounds(|raw|, |bytes|) && CurrentUri().Read(raw, bytes) == M.CurrentUri(Plain(bytes))
    {
      ReadStable(start.requestUri, raw, "", bytes);
      assert "" + bytes == bytes;
    }

    method GetField(field: nat, arena: HmrArena) returns (text: string)
      requires arena.Valid() && Valid(arena.used)
      ensures text == M.GetField(Plain(arena.Bytes()), field)
    {
      hide Uri.Component, Views.Plain;
      if field >= M.FIELD_MAX { return ""; }
      var r := M.FieldRefOf(field);
      CurrentUriReads(arena.Bytes());
      var value := CurrentUri();
      if r.header.Some? {
        value := GetHeader(r.header.value, arena);
      }
      return Uri.Component(value.Read(raw, arena.Bytes()), r.element);
    }

    method SetField(field: nat, text: string, arena: HmrArena) returns (ok: bool)
      requires arena.Valid() && Valid(arena.used)
      modifies this`modRequestUri, headers, arena`used, arena.buffer
      ensures arena.Valid() && Valid(arena.used) && old(arena.Bytes()) <= arena.Bytes()
      ensures M.Write(ok, Plain(arena.Bytes()), arena.used) ==
              M.SetField(old(Plain(arena.Bytes())), old(arena.used), field, text)
    {
      hide Uri.Rebuild, Views.Plain, Slice.Read;
      if field >= M.FIELD_MAX { return false; }
      var r := M.FieldRefOf(field);
      if r.header.None? {
        CurrentUriReads(arena.Bytes());
        var uri := Rewrite(CurrentUri().Read(raw, arena.Bytes()), r.element, text, arena);
        if uri.Null? { return false; }
        OverrideUri(uri, arena);
        return true;
      }
      var i := Find(r.header.value, arena);
      if i < 0 { return false; }
      HeaderReads(i, arena.Bytes());
      var value := Rewrite(headers[i].value.Read(raw, arena.Bytes()), r.element, text, arena);
      if value.Null? { return false; }
      SetValue(i, value, arena);
      return true;
    }

    lemma {:induction false} HeaderReads(i: nat, bytes: string)
      requires Valid(|bytes|) && i < numHeaders
      ensures headers[i].InBounds(|raw|, |bytes|)
      ensures headers[i].Read(raw, bytes) == Plain(bytes).headers[i]
    {
      assert headers[..numHeaders][i].InBounds(|raw|, |bytes|);
    }

    method OverrideUri(uri: Slice, arena: HmrArena)
      requires arena.Valid() && Valid(arena.used) && uri.View? && uri.InBounds(|raw|, arena.used)
      modifies this`modRequestUri
      ensures Valid(arena.used)
      ensures Plain(arena.Bytes()) == old(Plain(arena.Bytes())).(modUri := Some(uri.Read(raw, arena.Bytes())))
    {
      modRequestUri := uri;
    }

    /** A rebuilt value in the arena; the message does not notice. */
    method Rewrite(value: string, element: nat, text: string, arena: HmrArena) returns (r: Slice)
      requires arena.Valid() && Valid(arena.used)
      modifies arena`used, arena.buffer
      ensures arena.Valid() && Valid(arena.used) && Plain(arena.Bytes()) == old(Plain(arena.Bytes()))
      ensures var out := Uri.Rebuild(value, element, text);
              && (r.Null? <==> !Fits(old(arena.used), |out|))
              && arena.Bytes() == old(arena.Bytes()) + (if r.Null? then "" else out)
              && r.InBounds(|raw|, arena.used) && (r.View? ==> r.Read(raw, arena.Bytes()) == out)
    {
      ghost var bytes := arena.Bytes();
      r := Uri.RebuildUri(arena, value, element, text);
      PlainStable(Look(), raw, bytes, if r.Null? then "" else Uri.Rebuild(value, element, text));
    }

    // ---- printing ----------------------------------------------------------

    /**
     The printed message as one contiguous arena view, although the pieces copied may
     themselves lie in the arena; a null view if it does not fit. Either way every byte
     handed out before keeps its value and the message reads the same.
     */
    method Serialize(arena: HmrArena) returns (out: Slice)
      requires arena.Valid() && Valid(arena.used)
      modifies arena`used, arena.buffer
      ensures arena.Valid() && Valid(arena.used) && old(arena.Bytes()) <= arena.Bytes()
      ensures Plain(arena.Bytes()) == old(Plain(arena.Bytes())) && M.UriFits(Plain(arena.Bytes()))
      ensures var text := M.Print(Plain(arena.Bytes()));
              && (out.Null? <==> !Fits(old(arena.used), |text|))
              && (out.View? ==> arena.Bytes() == old(arena.Bytes()) + text &&
                                out == View(Arena, old(arena.used), |text|))
    {
      hide Views.Plain, Slice.Read, M.StartText, M.HeaderLine;
      ghost var m := Plain(arena.Bytes());
      StartFits(arena.Bytes());
      var begin := arena.used;
      ghost var before := arena.Bytes();
      var ok := PrintStart(arena);
      ok := Put("\r\n", ok, arena, before, M.StartText(m));
      ghost var head := M.StartText(m) + "\r\n";
      assert head + "" == head;
      for k := 0 to numHeaders
        invariant arena.Valid() && Valid(arena.used) && Plain(arena.Bytes()) == m
        invariant Printing(arena, ok, before, head + M.HeaderLines(m.headers[..k]))
      {
        HeaderLinesSnoc(m.headers, k);
        ok := PrintHeader(k, ok, arena, before, head + M.HeaderLines(m.headers[..k]));
        assert head + M.HeaderLines(m.headers[..k]) + M.HeaderLine(m.headers[k]) == head + M.HeaderLines(m.headers[..k + 1]);
      }
      assert m.headers[..numHeaders] == m.headers;
      ok := Put("\r\n", ok, arena, before, head + M.HeaderLines(m.headers));
      BodyReads(arena.Bytes());
      ok := Put(body.Read(raw, ""), ok, arena, before, head + M.HeaderLines(m.headers) + "\r\n");
      if !ok { return Null; }
      return View(Arena, begin, arena.used - begin);
    }

    lemma {:induction false} StartFits(bytes: string)
      requires Valid(|bytes|)
      ensures M.UriFits(Plain(bytes))
    {
    }

    lemma {:induction false} BodyReads(bytes: string)
      requires Valid(|bytes|)
      ensures body.InBounds(|raw|, 0) && body.Read(raw, "") == Plain(bytes).body
    {
    }

    /** The printer has written `done` after `before`, or `done` does not fit. */
    ghost predicate Printing(arena: HmrArena, ok: bool, before: string, done: string)
      requires arena.Valid()
      reads arena, arena.buffer
    {
      if ok then arena.Bytes() == before + done else before <= arena.Bytes() && !Fits(|before|, |done|)
    }

    /** Appends a piece unless an earlier one failed. */
    method Put(s: string, ok: bool, arena: HmrArena, ghost before: string, ghost done: string) returns (r: bool)
      requires arena.Valid() && Valid(arena.used) && Printing(arena, ok, before, done)
      modifies arena`used, arena.buffer
      ensures arena.Valid() && Valid(arena.used) && Plain(arena.Bytes()) == old(Plain(arena.Bytes()))
      ensures Printing(arena, r, before, done + s)
    {
      hide Views.Plain, Slice.Read;
      if !ok || s == "" {
        assert s == "" ==> done + s == done;
        return ok;
      }
      var p := Hold(s, arena);
      assert before + done + s == before + (done + s);
      return p.View?;
    }

    /** Prints the first line, splicing the request-URI override into it. */
    method PrintStart(arena: HmrArena) returns (ok: bool)
      requires arena.Valid() && Valid(arena.used)
      modifies arena`used, arena.buffer
      ensures arena.Valid() && Valid(arena.used) && Plain(arena.Bytes()) == old(Plain(arena.Bytes()))
      ensures M.UriFits(Plain(arena.Bytes()))
      ensures Printing(arena, ok, old(arena.Bytes()), M.StartText(Plain(arena.Bytes())))
    {
      hide Views.Plain, Slice.Read;
      ghost var before := arena.Bytes();
      ghost var m := Plain(before);
      StartReads(before);
      assert before + "" == before;
      var line := startLine.Read(raw, "");
      if start.isRequest && modRequestUri.View? && start.requestUri.View? {
        var off := start.requestUri.off - startLine.off;
        ok := Put(line[..off], true, arena, before, "");
        StartReads(arena.Bytes());
        ok := Put(modRequestUri.Read(raw, arena.Bytes()), ok, arena, before, line[..off]);
        ok := Put(line[off + start.requestUri.len..], ok, arena, before, line[..off] + m.modUri.value);
      } else {
        ok := Put(line, true, arena, before, "");
      }
    }

    /** What the start line views show, in terms of the plain message. */
    lemma {:induction false} StartReads(bytes: string)
      requires Valid(|bytes|)
      ensures var m := Plain(bytes);
              && M.UriFits(m) && startLine.InBounds(|raw|, 0) && m.startLine == startLine.Read(raw, "")
              && m.start.isRequest == start.isRequest && m.modUri.Some? == modRequestUri.View?
              && modRequestUri.InBounds(|raw|, |bytes|)
              && (m.modUri.Some? ==> m.modUri.value == modRequestUri.Read(raw, bytes))
              && m.start.requestUri.Some? == start.requestUri.View?
              && (start.requestUri.View? ==>
                    startLine.View? && startLine.off <= start.requestUri.off &&
                    m.start.requestUri.value.off == start.requestUri.off - startLine.off &&
                    |m.start.requestUri.value.text| == start.requestUri.len)
    {
      StartFits(bytes);
    }

    method PrintHeader(k: nat, ok: bool, arena: HmrArena, ghost before: string, ghost done: string) returns (r: bool)
      requires arena.Valid() && Valid(arena.used) && k < numHeaders && Printing(arena, ok, before, done)
      modifies arena`used, arena.buffer
      ensures arena.Valid() && Valid(arena.used) && Plain(arena.Bytes()) == old(Plain(arena.Bytes()))
      ensures Printing(arena, r, before, done + M.HeaderLine(Plain(arena.Bytes()).headers[k]))
    {
      hide Views.Plain, Slice.Read;
      ghost var h := Plain(arena.Bytes()).headers[k];
      HeaderReads(k, arena.Bytes());
      if headers[k].removed {
        assert done + "" == done;
        return ok;
      }
      r := Put(headers[k].name.Read(raw, arena.Bytes()), ok, arena, before, done);
      r := Put(": ", r, arena, before, done + h.name);
      HeaderReads(k, arena.Bytes());
      r := Put(headers[k].value.Read(raw, arena.Bytes()), r, arena, before, done + h.name + ": ");
      r := Put("\r\n", r, arena, before, done + h.name + ": " + h.value);
      assert done + h.name + ": " + h.value + "\r\n" == done + (h.name + ": " + h.value + "\r\n");
    }

    method Append(s: Slot)
      requires headers.Length == M.MAX_HEADERS && numHeaders < M.MAX_HEADERS
      modifies this`numHeaders, headers
      ensures numHeaders == old(numHeaders) + 1
      ensures headers[..numHeaders] == old(headers[..numHeaders]) + [s]
    {
      headers[numHeaders] := s;
      numHeaders := numHeaders + 1;
    }
  }

  /** Setting the flag on the matching slots tombstones the matching headers. */
  lemma {:induction false} SlotMatches(slot: Slot, name: string, packet: string, bytes: string)
    requires slot.InBounds(|packet|, |bytes|)
    ensures M.Matches(slot.Read(packet, bytes), name) <==>
            !slot.removed && IEquals(slot.name.Read(packet, bytes), name)
  {
  }

  lemma {:induction false} ReadTombstones(before: seq<Slot>, after: seq<Slot>, name: string, packet: string, bytes: string)
    requires SlotsInBounds(before, |packet|, |bytes|) && |after| == |before|
    requires var hs := ReadSlots(before, packet, bytes);
             forall j :: 0 <= j < |before| ==>
               after[j] == before[j].(removed := before[j].removed || M.Matches(hs[j], name))
    ensures SlotsInBounds(after, |packet|, |bytes|)
    ensures ReadSlots(after, packet, bytes) == M.Tombstoned(ReadSlots(before, packet, bytes), name)
  {
    hide Slice.Read;
    forall j | 0 <= j < |before|
      ensures after[j].InBounds(|packet|, |bytes|)
      ensures after[j].Read(packet, bytes) == M.Tombstoned(ReadSlots(before, packet, bytes), name)[j]
    {
      assert before[j].InBounds(|packet|, |bytes|);
    }
  }

  lemma {:induction false} HeaderLinesSnoc(headers: seq<M.Header>, k: nat)
    requires k < |headers|
    ensures M.HeaderLines(headers[..k + 1]) == M.HeaderLines(headers[..k]) + M.HeaderLine(headers[k])
  {
    hide M.HeaderLine;
    if k > 0 {
      HeaderLinesSnoc(headers[1..], k - 1);
      assert headers[..k + 1][1..] == headers[1..][..k] && headers[..k][1..] == headers[1..][..k - 1];
    }
  }

  lemma {:induction false} FindIs(headers: seq<M.Header>, name: string, i: nat)
    requires i <= |headers| && (i < |headers| ==> M.Matches(headers[i], name))
    requires forall k :: 0 <= k < i ==> !M.Matches(headers[k], name)
    ensures M.Find(headers, name) == i
  {
  }

  lemma {:induction false} NothingRead(raw: string, v: Views)
    requires v == Views(Null, NO_START, [], Null, Null)
    ensures Reading(raw, 0, true, v)
  {
  }
}
