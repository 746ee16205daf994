/**
 What the bytes of a packet mean, told from the text itself: the request line and the
 status line, and header lines with whatever padding, malformed lines and line ends a
 sender chose (RFC 3261, section 7). Blanks, separators and limits are spelled out here.
 */
module WireFormat {
  import opened Text
  import opened Message

  predicate NoSpace(s: string) {
    forall k :: 0 <= k < |s| ==> s[k] != ' '
  }

  /** Spaces and tabs. */
  predicate Pad(s: string) {
    forall k :: 0 <= k < |s| ==> s[k] == ' ' || s[k] == '\t'
  }

  /** Spaces, tabs and carriage returns. */
  predicate PadEnd(s: string) {
    forall k :: 0 <= k < |s| ==> s[k] == ' ' || s[k] == '\t' || s[k] == '\r'
  }

  /** Neither starts nor ends with padding. */
  predicate Tight(s: string) {
    s == "" || (s[0] !in " \t" && s[|s| - 1] !in " \t\r")
  }

  lemma {:induction false} TrimTight(lead: string, s: string, trail: string)
    requires Pad(lead) && Tight(s) && PadEnd(trail)
    ensures Trim(lead + s + trail, true) == s
  {
    hide Trim;
    TrimPadded(lead, s, trail, true);
  }

  // ---- the start line ------------------------------------------------------

  /** Where the first space of `a + " " + b` is. */
  lemma {:induction false} FirstSpace(a: string, b: string)
    requires NoSpace(a)
    ensures var s := a + " " + b;
      IndexOf(s, ' ') == |a| && s[..|a|] == a && s[|a| + 1..] == b
  {
    var s := a + " " + b;
    assert forall k :: 0 <= k < |a| ==> s[k] == a[k];
    FirstIs(s, ' ', |a|);
  }

  lemma {:induction false} NoFirstSpace(a: string)
    requires NoSpace(a)
    ensures IndexOf(a, ' ') == |a|
  {
    FirstIs(a, ' ', |a|);
  }

  /** The word after the first space, up to the next one or to the end. */
  lemma {:induction false} SecondWord(first: string, word: string, rest: string)
    requires NoSpace(word) && (rest == "" || rest[0] == ' ')
    ensures WordAt(first + " " + (word + rest), |first| + 1) == word
  {
    var t := first + " " + (word + rest);
    assert t[|first| + 1..] == word + rest;
    assert forall k :: 0 <= k < |word| ==> (word + rest)[k] == word[k];
    FirstIs(word + rest, ' ', |word|);
    assert t[|first| + 1..|first| + 1 + |word|] == word;
  }

  lemma {:induction false} StartsWithSip(a: string, b: string)
    requires NoSpace(a)
    ensures var t := a + " " + b; (|t| >= 4 && t[..4] == "SIP/") <==> (|a| >= 4 && a[..4] == "SIP/")
  {
    var t := a + " " + b;
    assert t[|a|] == ' ';
    if |a| < 4 && |t| >= 4 {
      assert t[..4][|a|] == ' ' && "SIP/"[|a|] != ' ';
    } else if |a| >= 4 {
      assert t[..4] == a[..4];
    }
  }

  /**
   A request line: the method, and the request-URI with the place where it starts; what
   follows the URI is not looked at.
   */
  lemma {:induction false} RequestLine(verb: string, lead: string, uri: string, trail: string, rest: string)
    requires NoSpace(verb) && !(|verb| >= 4 && verb[..4] == "SIP/")
    requires NoSpace(lead + uri + trail) && Pad(lead) && PadEnd(trail) && Tight(uri) && uri != ""
    requires rest == "" || rest[0] == ' '
    ensures ParseStart(verb + " " + (lead + uri + trail + rest)) ==
            Start(true, verb, Some(Located(|verb| + 1 + |lead|, uri)), 0, "")
  {
    hide ParseStart, Trim, LeadLen, NoSpace, Tight;
    RequestWords(verb, lead + uri + trail, rest);
    TrimTight(lead, uri, trail);
    LeadOf(lead, uri, trail);
  }

  lemma {:induction false} RequestWords(verb: string, word: string, rest: string)
    requires NoSpace(verb) && !(|verb| >= 4 && verb[..4] == "SIP/")
    requires NoSpace(word) && (rest == "" || rest[0] == ' ')
    ensures ParseStart(verb + " " + (word + rest)) ==
            Start(true, verb, Some(Located(|verb| + 1 + LeadLen(word), Trim(word, true))), 0, "")
  {
    hide WordAt, Trim, IndexOf, LeadLen;
    FirstSpace(verb, word + rest);
    StartsWithSip(verb, word + rest);
    SecondWord(verb, word, rest);
  }

  lemma {:induction false} LeadOf(lead: string, s: string, trail: string)
    requires Pad(lead) && Tight(s) && s != ""
    ensures LeadLen(lead + s + trail) == |lead|
  {
    var all := lead + s + trail;
    assert all[|lead|] == s[0];
    assert forall k :: 0 <= k < |lead| ==> all[k] == lead[k];
  }

  /** The usual request line. */
  lemma {:induction false} PlainRequestLine(verb: string, uri: string, version: string)
    requires NoSpace(verb) && !(|verb| >= 4 && verb[..4] == "SIP/")
    requires NoSpace(uri) && Tight(uri) && uri != ""
    ensures ParseStart(verb + " " + uri + " " + version) == Start(true, verb, Some(Located(|verb| + 1, uri)), 0, "")
  {
    hide ParseStart;
    assert verb + " " + uri + " " + version == verb + " " + ("" + uri + "" + (" " + version));
    assert "" + uri + "" == uri;
    RequestLine(verb, "", uri, "", " " + version);
  }

  lemma {:induction false} DecimalHasNoSpace(n: nat)
    ensures NoSpace(Decimal(n))
  {
    hide Decimal;
    assert forall k :: 0 <= k < |Decimal(n)| ==> Decimal(n)[k] in Decimal(n);
  }

  /** The code of a status line, at the width of the code's counter. */
  lemma {:induction false} CodeIsDecimal(n: nat)
    ensures CodeOf(Decimal(n)) == n % 0x1_0000_0000
  {
    var s := Decimal(n);
    assert DigitValue(DigitOf(n % 10)) == n % 10;
    if n >= 10 {
      CodeIsDecimal(n / 10);
      assert s[..|s| - 1] == Decimal(n / 10);
      Modulo(n / 10, n % 10);
    } else {
      assert s[..|s| - 1] == "";
      assert CodeOf("") == 0;
    }
  }

  lemma {:induction false} Modulo(q: nat, d: nat)
    ensures (q % 0x1_0000_0000 * 10 + d) % 0x1_0000_0000 == (q * 10 + d) % 0x1_0000_0000
  {
    var m := 0x1_0000_0000;
    assert q == q / m * m + q % m;
    assert q * 10 + d == q / m * 10 * m + (q % m * 10 + d);
    ModShift(q % m * 10 + d, q / m * 10);
  }

  lemma {:induction false} ModShift(x: nat, k: nat)
    ensures (k * 0x1_0000_0000 + x) % 0x1_0000_0000 == x % 0x1_0000_0000
  {
    if k > 0 {
      ModShift(x, k - 1);
    }
  }

  /** A status line: the code, and the reason phrase without its padding. */
  lemma {:induction false} StatusLine(version: string, n: nat, lead: string, reason: string, trail: string)
    requires NoSpace(version) && |version| >= 4 && version[..4] == "SIP/"
    requires Pad(lead) && Tight(reason) && PadEnd(trail)
    ensures ParseStart(version + " " + (Decimal(n) + (" " + (lead + reason + trail)))) ==
            Start(false, "", None, n % 0x1_0000_0000, reason)
  {
    hide WordAt, Trim, IndexOf, CodeOf, Decimal;
    var said := lead + reason + trail;
    DecimalHasNoSpace(n);
    FirstSpace(version, Decimal(n) + (" " + said));
    StartsWithSip(version, Decimal(n) + (" " + said));
    SecondWord(version, Decimal(n), " " + said);
    CodeIsDecimal(n);
    TrimTight(lead, reason, trail);
    AfterTwo(version, Decimal(n), said);
  }

  lemma {:induction false} AfterTwo(a: string, b: string, c: string)
    ensures var t := a + " " + (b + (" " + c)); |a| + 1 + |b| < |t| && t[|a| + 1 + |b| + 1..] == c
  {
  }

  /** A status line that ends after its code has no reason. */
  lemma {:induction false} ShortStatusLine(version: string, n: nat)
    requires NoSpace(version) && |version| >= 4 && version[..4] == "SIP/"
    ensures ParseStart(version + " " + (Decimal(n) + "")) == Start(false, "", None, n % 0x1_0000_0000, "")
  {
    hide WordAt, Trim, IndexOf, CodeOf, Decimal;
    DecimalHasNoSpace(n);
    FirstSpace(version, Decimal(n) + "");
    StartsWithSip(version, Decimal(n) + "");
    SecondWord(version, Decimal(n), "");
    CodeIsDecimal(n);
  }

  /** A first line of one word tells no more than whether it is a response. */
  lemma {:induction false} OneWord(t: string)
    requires NoSpace(t)
    ensures ParseStart(t) == Start(!(|t| >= 4 && t[..4] == "SIP/"), "", None, 0, "")
  {
    NoFirstSpace(t);
  }

  // ---- header lines --------------------------------------------------------

  /** A line of the header block: a header with its padding, or text that is none. */
  datatype Line =
    | Field(lead: string, name: string, mid: string, pad: string, value: string, trail: string)
    | Junk(text: string)
  {
    function Text(): string {
      match this
      case Field(lead, name, mid, pad, value, trail) => lead + name + mid + (":" + (pad + value + trail))
      case Junk(text) => text
    }

    predicate Proper() {
      match this
      case Field(lead, name, mid, pad, value, trail) =>
        && Pad(lead) && Tight(name) && PadEnd(mid) && ':' !in name && '\n' !in name
        && Pad(pad) && Tight(value) && PadEnd(trail) && '\n' !in value
      case Junk(text) =>
        ':' !in text && '\n' !in text && exists k :: 0 <= k < |text| && text[k] !in " \t\r"
    }
  }

  /** How the header block ends: a blank line and a body, or with the packet. */
  datatype Ending = Body(blank: string, text: string) | EndOfPacket
  {
    function Text(): string {
      match this
      case Body(blank, text) => blank + "\n" + text
      case EndOfPacket => ""
    }

    predicate Proper() {
      Body? ==> PadEnd(blank)
    }

    function Content(): string {
      if Body? then text else ""
    }
  }

  function LinesText(lines: seq<Line>): string {
    if lines == [] then "" else lines[0].Text() + "\n" + LinesText(lines[1..])
  }

  function FieldsOf(lines: seq<Line>): seq<Header> {
    if lines == [] then []
    else (if lines[0].Field? then [Header(lines[0].name, lines[0].value, false)] else []) + FieldsOf(lines[1..])
  }

  /** The first 32 of them. */
  function UpTo32(headers: seq<Header>): seq<Header> {
    if |headers| <= 32 then headers else headers[..32]
  }

  lemma {:induction false} FieldLine(headers: seq<Header>, l: Line)
    requires l.Field? && l.Proper()
    ensures AddParsed(headers, l.Text()) ==
            if |headers| >= 32 then headers else headers + [Header(l.name, l.value, false)]
    ensures Trim(l.Text(), true) != ""
    ensures forall k :: 0 <= k < |l.Text()| ==> l.Text()[k] != '\n'
  {
    hide Trim, IndexOf;
    var key, rest := l.lead + l.name + l.mid, l.pad + l.value + l.trail;
    assert l.Text() == key + (":" + rest);
    Concatenated(l.lead, l.name, l.mid);
    Concatenated(l.pad, l.value, l.trail);
    ColonAt(key, rest);
    TrimTight(l.lead, l.name, l.mid);
    TrimTight(l.pad, l.value, l.trail);
    InkStays(l.Text(), |key|);
  }

  lemma {:induction false} Concatenated(a: string, b: string, c: string)
    ensures forall k :: 0 <= k < |a + b + c| ==> (a + b + c)[k] in a || (a + b + c)[k] in b || (a + b + c)[k] in c
  {
  }

  lemma {:induction false} ColonAt(a: string, b: string)
    requires forall k :: 0 <= k < |a| ==> a[k] != ':'
    ensures var s := a + (":" + b); IndexOf(s, ':') == |a| && s[|a|] == ':' && s[..|a|] == a && s[|a| + 1..] == b
  {
    var s := a + (":" + b);
    assert forall k :: 0 <= k < |a| ==> s[k] == a[k];
    FirstIs(s, ':', |a|);
  }

  /** Trimming cannot erase a character that is no padding. */
  lemma {:induction false} InkStays(s: string, i: nat)
    requires i < |s| && s[i] !in " \t\r"
    ensures Trim(s, true) != ""
  {
    var n := LeadLen(s);
    assert n <= i;
    assert s[n..][i - n] == s[i];
  }

  lemma {:induction false} JunkLine(headers: seq<Header>, l: Line)
    requires l.Junk? && l.Proper()
    ensures AddParsed(headers, l.Text()) == headers && Trim(l.Text(), true) != ""
    ensures forall k :: 0 <= k < |l.Text()| ==> l.Text()[k] != '\n'
  {
    hide Trim;
    FirstIs(l.text, ':', |l.text|);
    var k :| 0 <= k < |l.text| && l.text[k] !in " \t\r";
    InkStays(l.text, k);
  }

  lemma {:induction false} FirstLineOf(line: string, rest: string)
    requires forall k :: 0 <= k < |line| ==> line[k] != '\n'
    ensures FirstLine(line + "\n" + rest) == line && AfterLine(line + "\n" + rest) == rest
  {
    var s := line + "\n" + rest;
    assert forall k :: 0 <= k < |line| ==> s[k] == line[k];
    FirstIs(s, '\n', |line|);
  }

  lemma {:induction false} EndingReads(e: Ending, headers: seq<Header>)
    requires e.Proper()
    ensures ParseFields(e.Text(), headers) == Fields(headers, e.Content())
  {
    hide Trim, FirstLine, AfterLine, AddParsed;
    if e.Body? {
      FirstLineOf(e.blank, e.text);
      TrimTight("", "", e.blank);
      assert "" + "" + e.blank == e.blank;
    }
  }

  /** Reading a header block: its well-formed lines in order, up to the limit, and the body. */
  lemma {:induction false} ReadLines(lines: seq<Line>, e: Ending, acc: seq<Header>)
    requires (forall k :: 0 <= k < |lines| ==> lines[k].Proper()) && e.Proper() && |acc| <= 32
    ensures ParseFields(LinesText(lines) + e.Text(), acc) == Fields(UpTo32(acc + FieldsOf(lines)), e.Content())
    decreases |lines|
  {
    hide FirstLine, AfterLine, Trim, AddParsed, Line.Text, Line.Proper, Ending.Text, Ending.Proper;
    if lines == [] {
      EndingReads(e, acc);
      assert "" + e.Text() == e.Text() && acc + [] == acc;
    } else {
      var l, rest := lines[0], LinesText(lines[1..]) + e.Text();
      assert LinesText(lines) + e.Text() == l.Text() + "\n" + rest;
      if l.Field? {
        FieldLine(acc, l);
      } else {
        JunkLine(acc, l);
      }
      FirstLineOf(l.Text(), rest);
      ReadLines(lines[1..], e, AddParsed(acc, l.Text()));
      Cap(acc, l, FieldsOf(lines[1..]));
    }
  }

  lemma {:induction false} Cap(acc: seq<Header>, l: Line, more: seq<Header>)
    requires |acc| <= 32
    ensures l.Field? ==>
      UpTo32(acc + ([Header(l.name, l.value, false)] + more)) ==
      UpTo32((if |acc| >= 32 then acc else acc + [Header(l.name, l.value, false)]) + more)
    ensures [] + more == more
  {
  }

  /** What a packet says, told from its lines. */
  lemma {:induction false} PacketReads(lead: string, start: string, trail: string, lines: seq<Line>, e: Ending)
    requires Pad(lead) && Tight(start) && PadEnd(trail) && '\n' !in start
    requires (forall k :: 0 <= k < |lines| ==> lines[k].Proper()) && e.Proper()
    ensures ParseMessage(lead + start + trail + "\n" + (LinesText(lines) + e.Text())) ==
            Message(start, ParseStart(start), UpTo32(FieldsOf(lines)), e.Content(), None)
  {
    hide FirstLine, AfterLine, Trim, ParseFields, ParseStart;
    Concatenated(lead, start, trail);
    FirstLineOf(lead + start + trail, LinesText(lines) + e.Text());
    TrimTight(lead, start, trail);
    ReadLines(lines, e, []);
    assert [] + FieldsOf(lines) == FieldsOf(lines);
  }
}
