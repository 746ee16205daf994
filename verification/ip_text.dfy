/**
 From texts to membership: which texts an address has, what is read from each of them, and
 what the equality, subnet and range tests answer on addresses written as text
 (RFC 4291 section 2.2, RFC 4632 section 3.1).
 */
module IpText {
  import opened Text
  import opened Matchers
  import opened Subnets
  import opened IpMatchers
  import opened Ipv6Text

  /** Spaces and tabs. */
  predicate Pad(s: string) {
    forall k :: 0 <= k < |s| ==> s[k] == ' ' || s[k] == '\t'
  }

  // ---- dotted quads --------------------------------------------------------

  function Quad(f0: string, f1: string, f2: string, f3: string): string {
    f0 + ("." + (f1 + ("." + (f2 + ("." + f3)))))
  }

  predicate NoDot(s: string) {
    forall k :: 0 <= k < |s| ==> s[k] != '.'
  }

  lemma {:induction false} SplitDot(field: string, rest: string)
    requires NoDot(field)
    ensures Split(field + ("." + rest), '.') == [field] + Split(rest, '.')
  {
    var s := field + ("." + rest);
    assert forall k :: 0 <= k < |field| ==> s[k] == field[k];
    SplitStep(s, '.', |field|);
    assert s[..|field|] == field && s[|field| + 1..] == rest;
  }

  lemma {:induction false} SplitQuad(f0: string, f1: string, f2: string, f3: string)
    requires NoDot(f0) && NoDot(f1) && NoDot(f2) && NoDot(f3)
    ensures Split(Quad(f0, f1, f2, f3), '.') == [f0, f1, f2, f3]
  {
    hide Split;
    SplitDot(f0, f1 + ("." + (f2 + ("." + f3))));
    SplitDot(f1, f2 + ("." + f3));
    SplitDot(f2, f3);
    SplitStep(f3, '.', |f3|);
    assert f3[..|f3|] == f3;
  }

  /** A field of a dotted quad and its value: decimal digits, any number of leading zeros. */
  predicate OctetText(field: string, value: nat) {
    field != "" && (forall k :: 0 <= k < |field| ==> '0' <= field[k] <= '9') && DecimalValue(field) == value
  }

  lemma {:induction false} OctetReads(field: string, value: Byte)
    requires OctetText(field, value)
    ensures Octet(field) == Some([value]) && NoDot(field)
  {
  }

  lemma {:induction false} AllOctets(f: seq<string>, b: seq<Byte>)
    requires |f| == |b| && forall k :: 0 <= k < |f| ==> Octet(f[k]) == Some([b[k]])
    ensures Octets(f) == Some(b)
  {
    hide Octet;
    if f != [] {
      AllOctets(f[1..], b[1..]);
      assert b == [b[0]] + b[1..];
    }
  }

  /** Four decimal fields up to 255 are read as those four bytes. */
  lemma {:induction false} QuadReads(f: seq<string>, b: seq<Byte>)
    requires |f| == |b| == 4 && forall k :: 0 <= k < 4 ==> OctetText(f[k], b[k])
    ensures Ipv4(Quad(f[0], f[1], f[2], f[3])) == Some(b)
  {
    hide Split, Octets, Octet, OctetText;
    forall k | 0 <= k < 4
      ensures Octet(f[k]) == Some([b[k]]) && NoDot(f[k])
    {
      OctetReads(f[k], b[k]);
    }
    SplitQuad(f[0], f[1], f[2], f[3]);
    assert f == [f[0], f[1], f[2], f[3]];
    AllOctets(f, b);
  }

  /** A text with a character that is neither digit nor dot is no dotted quad. */
  lemma {:induction false} OnlyDigitsAndDots(s: string, k: nat)
    requires Octets(Split(s, '.')).Some? && k < |s|
    ensures s[k] == '.' || '0' <= s[k] <= '9'
    decreases |s|
  {
    var i := IndexOf(s, '.');
    var fields := Split(s, '.');
    assert Octet(fields[0]).Some?;
    if k < i {
      assert fields[0] == s[..i] && s[..i][k] == s[k];
    } else if k > i {
      assert fields[1..] == Split(s[i + 1..], '.');
      OnlyDigitsAndDots(s[i + 1..], k - i - 1);
    }
  }

  lemma {:induction false} NoQuad(s: string, k: nat)
    requires k < |s| && s[k] != '.' && !('0' <= s[k] <= '9')
    ensures Ipv4(s) == None
  {
    hide Octets, Split;
    if Ipv4(s).Some? {
      OnlyDigitsAndDots(s, k);
    }
  }

  lemma {:induction false} SplitGlue(s: string)
    ensures Split(s, '.')[0] == s || (Split(s, '.') == [Split(s, '.')[0]] + Split(s, '.')[1..] && Split(s, '.')[1..] != [])
    ensures |Split(s, '.')| == 1 ==> Split(s, '.')[0] == s
    ensures |Split(s, '.')| > 1 ==>
      exists rest :: s == Split(s, '.')[0] + ("." + rest) && Split(rest, '.') == Split(s, '.')[1..]
  {
    var i := IndexOf(s, '.');
    if i < |s| {
      var rest := s[i + 1..];
      assert s == s[..i] + ("." + rest) && Split(rest, '.') == Split(s, '.')[1..];
    }
  }

  predicate IsQuad(s: string, f: seq<string>, b: seq<Byte>) {
    |f| == |b| == 4 && s == Quad(f[0], f[1], f[2], f[3]) && forall k :: 0 <= k < 4 ==> OctetText(f[k], b[k])
  }

  /** Strictly four fields: a text is read as a dotted quad only if it is one. */
  lemma {:induction false} QuadOnly(s: string)
    requires Ipv4(s).Some?
    ensures exists f: seq<string> :: IsQuad(s, f, Ipv4(s).value)
  {
    hide Split, Octet;
    var f := Split(s, '.');
    SplitGlue(s);
    var r1 :| s == f[0] + ("." + r1) && Split(r1, '.') == f[1..];
    SplitGlue(r1);
    var r2 :| r1 == f[1] + ("." + r2) && Split(r2, '.') == f[2..];
    SplitGlue(r2);
    var r3 :| r2 == f[2] + ("." + r3) && Split(r3, '.') == f[3..];
    SplitGlue(r3);
    assert s == Quad(f[0], f[1], f[2], f[3]);
    FieldsAreOctets(f, Ipv4(s).value);
    assert IsQuad(s, f, Ipv4(s).value);
  }

  lemma {:induction false} FieldsAreOctets(f: seq<string>, b: seq<Byte>)
    requires Octets(f) == Some(b)
    ensures |f| == |b| && forall k :: 0 <= k < |f| ==> OctetText(f[k], b[k])
  {
    if f != [] {
      FieldsAreOctets(f[1..], b[1..]);
    }
  }

  // ---- the texts of an address ---------------------------------------------

  lemma {:induction false} DecimalText(n: nat)
    ensures OctetText(Decimal(n), n)
  {
    DecimalRoundTrip(n);
    assert forall k :: 0 <= k < |Decimal(n)| ==> Decimal(n)[k] in Decimal(n);
  }

  function Dotted(b: seq<Byte>): string
    requires |b| == 4
  {
    Quad(Decimal(b[0]), Decimal(b[1]), Decimal(b[2]), Decimal(b[3]))
  }

  /** An address as text: the dotted quad, or the eight groups. */
  function Printed(a: IpAddr): string
    requires a.WellSized()
  {
    match a
    case Invalid => ""
    case V4(b) => Dotted(b)
    case V6(b) => Join(PrintGroups(b))
  }

  /** No character of it is taken for padding, a bracket, a zone mark, or a separator of a pattern. */
  predicate AddressChars(s: string) {
    forall k :: 0 <= k < |s| ==> HexVal(s[k]) >= 0 || s[k] == '.' || s[k] == ':'
  }

  lemma {:induction false} QuadChars(f0: string, f1: string, f2: string, f3: string)
    requires AddressChars(f0) && AddressChars(f1) && AddressChars(f2) && AddressChars(f3)
    ensures AddressChars(Quad(f0, f1, f2, f3))
  {
    Glued(f2, f3);
    Glued(f1, f2 + ("." + f3));
    Glued(f0, f1 + ("." + (f2 + ("." + f3))));
  }

  lemma {:induction false} Glued(a: string, b: string)
    requires AddressChars(a) && AddressChars(b)
    ensures AddressChars(a + ("." + b)) && AddressChars(a + ":" + b)
  {
  }

  lemma {:induction false} JoinChars(toks: seq<string>)
    requires GroupTexts(toks)
    ensures AddressChars(Join(toks))
  {
    if toks != [] {
      assert GroupText(toks[0]);
      if |toks| > 1 {
        JoinChars(toks[1..]);
        Glued(toks[0], Join(toks[1..]));
      }
    }
  }

  lemma {:induction false} DecimalChars(n: nat)
    ensures AddressChars(Decimal(n))
  {
    assert forall k :: 0 <= k < |Decimal(n)| ==> Decimal(n)[k] in Decimal(n);
  }

  lemma {:induction false} PrintedChars(a: IpAddr)
    requires a.WellSized() && !a.Invalid?
    ensures AddressChars(Printed(a)) && Printed(a) != ""
  {
    hide AddressChars;
    match a
    case V4(b) =>
      DecimalChars(b[0]);
      DecimalChars(b[1]);
      DecimalChars(b[2]);
      DecimalChars(b[3]);
      QuadChars(Decimal(b[0]), Decimal(b[1]), Decimal(b[2]), Decimal(b[3]));
    case V6(b) =>
      PrintedGroupsRead(b);
      HextetsAreTexts(PrintGroups(b));
      JoinChars(PrintGroups(b));
      JoinColons(PrintGroups(b));
  }

  lemma {:induction false} AddressTrimmed(lead: string, s: string, trail: string)
    requires Pad(lead) && Pad(trail) && (s != "" ==> s[0] !in " \t" && s[|s| - 1] !in " \t")
    ensures Trim(lead + s + trail, false) == s
  {
    hide Trim;
    TrimPadded(lead, s, trail, false);
  }

  lemma {:induction false} CharsNotBlank(s: string)
    requires AddressChars(s)
    ensures s != "" ==> s[0] !in " \t" && s[|s| - 1] !in " \t"
    ensures forall k :: 0 <= k < |s| ==> s[k] !in "/-%[]"
  {
  }

  /** Reading an IPv6 text that is no dotted quad, with padding, in brackets, or with a zone. */
  lemma {:induction false} V6Spellings(lead: string, t: string, zone: string, trail: string, b: seq<Byte>)
    requires Pad(lead) && Pad(trail) && AddressChars(t) && ':' in t && Ipv6(t) == Some(b)
    requires zone != "" ==> zone[|zone| - 1] !in " \t"
    ensures ParseIp(lead + t + trail) == V6(b)
    ensures ParseIp(lead + ("[" + t + "]") + trail) == V6(b)
    ensures ParseIp(lead + (t + "%" + zone) + trail) == V6(b)
    ensures ParseIp(lead + ("[" + (t + "%" + zone) + "]") + trail) == V6(b)
  {
    hide ParseIp, BareV6, Ipv6, AddressChars;
    CharsNotBlank(t);
    var k :| 0 <= k < |t| && t[k] == ':';
    BareSpellings(t, zone);
    SpellingReads(lead, t, trail, t, k, b);
    SpellingReads(lead, "[" + t + "]", trail, t, k + 1, b);
    SpellingReads(lead, t + "%" + zone, trail, t, k, b);
    SpellingReads(lead, "[" + (t + "%" + zone) + "]", trail, t, k + 1, b);
  }

  lemma {:induction false} SpellingReads(lead: string, s: string, trail: string, t: string, k: nat, b: seq<Byte>)
    requires Pad(lead) && Pad(trail) && s != "" && s[0] !in " \t" && s[|s| - 1] !in " \t"
    requires k < |s| && s[k] == ':' && BareV6(s) == t == BareV6(t) && Ipv6(t) == Some(b)
    ensures ParseIp(lead + s + trail) == V6(b)
  {
    hide Trim, Ipv4, Ipv6, BareV6;
    NoQuad(s, k);
    AddressTrimmed(lead, s, trail);
    SameBare(t, s);
  }

  lemma {:induction false} SameBare(s: string, t: string)
    requires BareV6(s) == BareV6(t)
    ensures Ipv6(s) == Ipv6(t)
  {
    hide BareV6, FindDouble, V6Part;
  }

  /** Brackets and zones are dropped. */
  lemma {:induction false} BareSpellings(t: string, zone: string)
    requires AddressChars(t) && t != ""
    ensures BareV6(t) == t && BareV6("[" + t + "]") == t
    ensures BareV6(t + "%" + zone) == t && BareV6("[" + (t + "%" + zone) + "]") == t
  {
    hide BareV6, AddressChars;
    CharsNotBlank(t);
    BareIsItself(t);
    BareZoned(t, zone);
    Unbracketed(t);
    Unbracketed(t + "%" + zone);
    assert (t + "%" + zone)[0] == t[0];
  }

  lemma {:induction false} Unbracketed(s: string)
    requires s != "" && s[0] != '['
    ensures BareV6("[" + s + "]") == BareV6(s)
  {
    hide IndexOf;
    var b := "[" + s + "]";
    assert b[0] == '[' && b[|b| - 1] == ']' && b[1..|b| - 1] == s;
  }

  lemma {:induction false} BareZoned(t: string, zone: string)
    requires t != "" && t[0] != '[' && forall k :: 0 <= k < |t| ==> t[k] != '%'
    ensures BareV6(t + "%" + zone) == t
  {
    hide IndexOf;
    var zoned := t + "%" + zone;
    assert zoned[0] == t[0];
    assert forall k :: 0 <= k < |t| ==> zoned[k] == t[k];
    FirstIs(zoned, '%', |t|);
    assert zoned[..|t|] == t;
  }

  /** A printed address, padded or not, is read as that address. */
  lemma {:induction false} PrintedReads(lead: string, a: IpAddr, trail: string)
    requires Pad(lead) && Pad(trail) && a.WellSized() && !a.Invalid?
    ensures ParseIp(lead + Printed(a) + trail) == a && ParseIp(Printed(a)) == a
  {
    hide Trim, Ipv4, Ipv6, AddressChars;
    PrintedChars(a);
    CharsNotBlank(Printed(a));
    AddressTrimmed(lead, Printed(a), trail);
    AddressTrimmed("", Printed(a), "");
    assert "" + Printed(a) + "" == Printed(a);
    match a
    case V4(b) =>
      DottedReads(b);
    case V6(b) =>
      PrintParse(b);
      assert Join(PrintGroups(b))[|PrintGroups(b)[0]|] == ':' by { FirstColon(PrintGroups(b)); }
      NoQuad(Printed(a), |PrintGroups(b)[0]|);
  }

  lemma {:induction false} FirstColon(toks: seq<string>)
    requires |toks| > 1
    ensures |toks[0]| < |Join(toks)| && Join(toks)[|toks[0]|] == ':'
  {
  }

  lemma {:induction false} DottedReads(b: seq<Byte>)
    requires |b| == 4
    ensures Ipv4(Dotted(b)) == Some(b)
  {
    hide Ipv4, Decimal, OctetText;
    var f := [Decimal(b[0]), Decimal(b[1]), Decimal(b[2]), Decimal(b[3])];
    forall k | 0 <= k < 4
      ensures OctetText(f[k], b[k])
    {
      DecimalText(b[k]);
    }
    QuadReads(f, b);
  }

  /** `head::tail` is an address exactly if it leaves out at least one of the eight groups. */
  lemma {:induction false} ElidedReads(head: seq<string>, tail: seq<string>)
    requires Hextets(head) && Hextets(tail)
    ensures
      var r := ParseIp(Join(head) + "::" + Join(tail));
      if |head| + |tail| <= 7
      then GroupBytes(head).Some? && GroupBytes(tail).Some? &&
           r == V6(GroupBytes(head).value + Zeros(16 - 2 * |head| - 2 * |tail|) + GroupBytes(tail).value)
      else r == Invalid
  {
    hide GroupBytes, Join, IsHextet, Hextets, GroupTexts, GroupText, Ipv4, Ipv6, AddressChars, Trim;
    var s := Join(head) + "::" + Join(tail);
    HextetsAreTexts(head);
    HextetsAreTexts(tail);
    HextetsRead(head);
    HextetsRead(tail);
    ReadElided(head, tail);
    JoinChars(head);
    JoinChars(tail);
    DoubleChars(Join(head), Join(tail));
    CharsNotBlank(s);
    AddressTrimmed("", s, "");
    assert "" + s + "" == s;
    assert s[|Join(head)|] == ':';
    NoQuad(s, |Join(head)|);
  }

  lemma {:induction false} DoubleChars(a: string, b: string)
    requires AddressChars(a) && AddressChars(b)
    ensures AddressChars(a + "::" + b)
  {
  }

  /** Two elisions are none. */
  lemma {:induction false} OneElision(s: string, i: nat, j: nat)
    requires i < j && j + 1 < |s| && s[i] == s[i + 1] == s[j] == s[j + 1] == ':' && AddressChars(s)
    ensures Ipv6(s) == None
  {
    hide V6Part, BareV6, AddressChars, FindDouble;
    CharsNotBlank(s);
    BareIsItself(s);
    assert FindDouble(s, 0) <= i;
    assert FindDouble(s, FindDouble(s, 0) + 1) <= j;
  }

  /** Hex digits are read in either case. */
  lemma {:induction false} UpperHex(s: string, t: string)
    requires |s| == |t|
    requires forall k :: 0 <= k < |s| ==>
      t[k] == s[k] || ('a' <= s[k] <= 'f' && t[k] as int == s[k] as int - 'a' as int + 'A' as int)
    ensures AllHex(s) ==> Hextet(t) == Hextet(s)
  {
    if AllHex(s) {
      assert forall k :: 0 <= k < |s| ==> HexVal(t[k]) == HexVal(s[k]);
      SameHex(s, t);
    }
  }

  lemma {:induction false} SameHex(s: string, t: string)
    requires |s| == |t| && AllHex(s) && forall k :: 0 <= k < |s| ==> HexVal(t[k]) == HexVal(s[k])
    ensures AllHex(t) && HexValue(s) == HexValue(t)
  {
    if s != "" {
      SameHex(s[..|s| - 1], t[..|t| - 1]);
    }
  }

  // ---- the tests on texts --------------------------------------------------

  lemma {:induction false} CutAt(a: string, sep: string, b: string)
    requires |sep| == 1 && forall k :: 0 <= k < |a| ==> a[k] != sep[0]
    ensures var s := a + sep + b; IndexOf(s, sep[0]) == |a| && s[..|a|] == a && s[|a| + 1..] == b
  {
    var s := a + sep + b;
    assert forall k :: 0 <= k < |a| ==> s[k] == a[k];
    FirstIs(s, sep[0], |a|);
  }

  /** Equality of address texts is equality of the addresses. */
  lemma {:induction false} EqualTexts(a: IpAddr, b: IpAddr)
    requires a.WellSized() && b.WellSized() && !a.Invalid? && !b.Invalid?
    ensures MatchIp(Printed(a), Printed(b)) <==> a == b
  {
    hide ParseIp, Printed;
    PrintedReads("", a, "");
    PrintedReads("", b, "");
  }

  /** The pieces around the separator of a pattern, trimmed. */
  lemma {:induction false} PatternPieces(a: string, pad1: string, sep: string, pad2: string, b: string)
    requires Pad(pad1) && Pad(pad2) && AddressChars(a) && AddressChars(b) && (sep == "/" || sep == "-")
    ensures
      var s := a + pad1 + sep + (pad2 + b);
      var i := IndexOf(s, sep[0]);
      i < |s| && Trim(s[..i], false) == a && Trim(s[i + 1..], false) == b
  {
    hide Trim, AddressChars;
    CharsNotBlank(a);
    CharsNotBlank(b);
    assert forall k :: 0 <= k < |a + pad1| ==> (a + pad1)[k] != sep[0];
    CutAt(a + pad1, sep, pad2 + b);
    AddressTrimmed("", a, pad1);
    AddressTrimmed(pad2, b, "");
    assert "" + a + pad1 == a + pad1 && pad2 + b + "" == pad2 + b;
  }

  /** The interval of the `/p` block around an address. */
  ghost predicate InBlock(a: IpAddr, n: IpAddr, p: nat)
    requires a.WellSized() && n.WellSized() && p <= 8 * Width(n)
  {
    var size := Pow2(8 * Width(n) - p);
    var base := Num(AddressBytes(n)) / size * size;
    a.SameFamily(n) && base <= Num(AddressBytes(a)) <= base + size - 1
  }

  function AddressBytes(a: IpAddr): seq<Byte> {
    match a
    case Invalid => []
    case V4(b) => b
    case V6(b) => b
  }

  function Width(a: IpAddr): nat {
    |AddressBytes(a)|
  }

  lemma {:induction false} PrefixTooLong(p: nat, net: IpAddr)
    requires !net.Invalid? && net.WellSized() && p > 8 * |net.bytes|
    ensures PrefixLength(Decimal(p), net) == None
  {
    DecimalRoundTrip(p);
    DigitsAreNoAddress(Decimal(p));
    assert forall k :: 0 <= k < |Decimal(p)| ==> Decimal(p)[k] in Decimal(p);
  }

  /** A subnet test on texts: membership in the block of the network, if the prefix is not too long. */
  lemma {:induction false} SubnetTexts(lead: string, a: IpAddr, trail: string, n: IpAddr, pad1: string, pad2: string, p: nat)
    requires a.WellSized() && n.WellSized() && !a.Invalid? && !n.Invalid?
    requires Pad(lead) && Pad(trail) && Pad(pad1) && Pad(pad2)
    ensures InSubnet(lead + Printed(a) + trail, Printed(n) + pad1 + "/" + (pad2 + Decimal(p))) <==>
            p <= 8 * Width(n) && InBlock(a, n, p)
  {
    hide ParseIp, Printed, Trim, IndexOf, Decimal, Num, Pow2, PrefixLength, SameBlock, AddressChars;
    PrintedReads(lead, a, trail);
    PrintedReads("", n, "");
    PrintedChars(n);
    DecimalChars(p);
    PatternPieces(Printed(n), pad1, "/", pad2, Decimal(p));
    if p > 8 * Width(n) {
      PrefixTooLong(p, n);
    } else if a.SameFamily(n) {
      SubnetIsInterval(a, n, p);
      BaseIs(Num(n.bytes), 8 * Width(n) - p);
    }
  }

  lemma {:induction false} BaseIs(n: nat, k: nat)
    ensures BlockBase(n, k) == n / Pow2(k) * Pow2(k)
  {
  }

  /** A subnet test with a mask written as an address: only leading ones are a prefix. */
  lemma {:induction false} MaskTexts(a: IpAddr, n: IpAddr, mask: IpAddr, p: nat)
    requires a.WellSized() && n.WellSized() && mask.WellSized() && !a.Invalid? && n.SameFamily(mask)
    requires p <= 8 * Width(mask)
    ensures LeadingOnes(AddressBytes(mask), p) ==> (InSubnet(Printed(a), Printed(n) + "/" + Printed(mask)) <==> InBlock(a, n, p))
    ensures (forall q :: 0 <= q <= 8 * Width(mask) ==> !LeadingOnes(AddressBytes(mask), q)) ==>
      !InSubnet(Printed(a), Printed(n) + "/" + Printed(mask))
  {
    hide ParseIp, Printed, Trim, IndexOf, Num, Pow2, PrefixLength, SameBlock, AddressChars, LeadingOnes;
    PrintedReads("", a, "");
    PrintedReads("", n, "");
    PrintedReads("", mask, "");
    PrintedChars(n);
    PrintedChars(mask);
    PatternPieces(Printed(n), "", "/", "", Printed(mask));
    assert Printed(n) + "" + "/" + ("" + Printed(mask)) == Printed(n) + "/" + Printed(mask);
    if a.SameFamily(n) {
      DottedMaskIsPrefix(a, n, Printed(mask), p);
      SubnetIsInterval(a, n, p);
      BaseIs(Num(n.bytes), 8 * Width(n) - p);
    }
  }

  /** A range test on texts: integer order within one family. */
  lemma {:induction false} RangeTexts(lead: string, x: IpAddr, trail: string, lo: IpAddr, pad1: string, pad2: string, hi: IpAddr)
    requires x.WellSized() && lo.WellSized() && hi.WellSized() && !x.Invalid? && !lo.Invalid? && !hi.Invalid?
    requires Pad(lead) && Pad(trail) && Pad(pad1) && Pad(pad2)
    ensures InRange(lead + Printed(x) + trail, Printed(lo) + pad1 + "-" + (pad2 + Printed(hi))) <==>
            lo.SameFamily(x) && hi.SameFamily(x) && Num(AddressBytes(lo)) <= Num(AddressBytes(x)) <= Num(AddressBytes(hi))
  {
    hide ParseIp, Printed, Trim, IndexOf, Num, AddressChars;
    PrintedReads(lead, x, trail);
    PrintedReads("", lo, "");
    PrintedReads("", hi, "");
    PrintedChars(lo);
    PrintedChars(hi);
    PatternPieces(Printed(lo), pad1, "-", pad2, Printed(hi));
  }
}
