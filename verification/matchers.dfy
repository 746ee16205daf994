/**
 The specialised matchers: exact and FQDN comparison, and IP equality, subnet
 and range tests over addresses parsed into network-order bytes.
 Each loop is proved against a function over the whole text.
 */
module Matchers {
  import opened Text
  import opened Lowering

  type Byte = n: nat | n < 256

  /** A parsed address in network byte order. */
  datatype IpAddr = Invalid | V4(bytes: seq<Byte>) | V6(bytes: seq<Byte>) {
    predicate WellSized() {
      match this
      case Invalid => true
      case V4(b) => |b| == 4
      case V6(b) => |b| == 16
    }
    predicate SameFamily(other: IpAddr) {
      (V4? && other.V4?) || (V6? && other.V6?)
    }
  }

  // ---- text pieces ---------------------------------------------------------

  /** A non-empty decimal not above `max`. */
  function Uint(s: string, max: nat): Option<nat> {
    if s != "" && AllDigits(s) && DecimalValue(s) <= max then Some(DecimalValue(s)) else None
  }

  method ParseUint(s: string, max: nat) returns (r: Option<nat>)
    ensures r == Uint(s, max)
  {
    if s == "" { return None; }
    var v := 0;
    for i := 0 to |s|
      invariant AllDigits(s[..i]) && v == DecimalValue(s[..i]) && v <= max
    {
      assert s[..i + 1][..i] == s[..i];
      if !IsDigit(s[i]) { return None; }
      v := v * 10 + DigitValue(s[i]);
      if v > max {
        DecimalGrows(s, i + 1);
        return None;
      }
    }
    assert s[..|s|] == s;
    return Some(v);
  }

  /** A decimal is never below any of its leading parts. */
  lemma {:induction false} DecimalGrows(s: string, n: nat)
    requires n <= |s|
    ensures DecimalValue(s[..n]) <= DecimalValue(s)
    decreases |s|
  {
    if n < |s| {
      DecimalGrows(s[..|s| - 1], n);
      assert s[..|s| - 1][..n] == s[..n];
    } else {
      assert s[..n] == s;
    }
  }

  // ---- IPv4 ----------------------------------------------------------------

  /** Concatenation of two parsed stretches, if both parsed. */
  function Append(a: Option<seq<Byte>>, b: Option<seq<Byte>>): Option<seq<Byte>> {
    if a.Some? && b.Some? then Some(a.value + b.value) else None
  }

  lemma {:induction false} AppendAssoc(a: Option<seq<Byte>>, b: Option<seq<Byte>>, c: Option<seq<Byte>>)
    ensures Append(Append(a, b), c) == Append(a, Append(b, c))
    ensures Append(Some([]), a) == a == Append(a, Some([]))
  {
    if a.Some? {
      assert [] + a.value == a.value == a.value + [];
      if b.Some? && c.Some? {
        assert a.value + b.value + c.value == a.value + (b.value + c.value);
      }
    }
  }

  function Octet(field: string): Option<seq<Byte>> {
    var v := Uint(field, 255);
    if v.Some? then Some([v.value]) else None
  }

  /** Octets of the fields, or None when one of them is not in 0..255. */
  function Octets(fields: seq<string>): Option<seq<Byte>> {
    if fields == [] then Some([]) else Append(Octet(fields[0]), Octets(fields[1..]))
  }

  /** Strict dotted quad. */
  function Ipv4(s: string): (r: Option<seq<Byte>>)
    ensures r.Some? ==> |r.value| == 4
  {
    var fields := Split(s, '.');
    if |fields| == 4 then
      OctetCount(fields);
      Octets(fields)
    else None
  }

  lemma {:induction false} OctetStep(out: seq<Byte>, rest: seq<string>, octet: Option<nat>)
    requires rest != [] && octet == Uint(rest[0], 255)
    ensures Append(Some(out), Octets(rest)) ==
            if octet.None? then None else Append(Some(out + [octet.value]), Octets(rest[1..]))
  {
    AppendAssoc(Some(out), Octet(rest[0]), Octets(rest[1..]));
  }

  lemma {:induction false} EmptyOctets()
    ensures Octets([]) == Some([])
  {
  }

  lemma {:induction false} OctetCount(fields: seq<string>)
    ensures Octets(fields).Some? ==> |Octets(fields).value| == |fields|
  {
    if fields != [] {
      OctetCount(fields[1..]);
    }
  }

  method ParseIpv4(s: string) returns (r: Option<seq<Byte>>)
    ensures r == Ipv4(s)
  {
    hide Split, Octets, Octet;
    var out: seq<Byte> := [];
    var start := 0;
    ghost var rest := Split(s, '.');
    ghost var whole := Octets(rest);
    assert s[0..] == s;
    AppendAssoc(whole, None, None);
    for i := 0 to |s| + 1
      invariant start <= i && |out| <= 4
      invariant AtField(s, '.', start, i, rest)
      invariant |Split(s, '.')| == |out| + |rest|
      invariant whole == Append(Some(out), Octets(rest))
    {
      if i == |s| || s[i] == '.' {
        if |out| >= 4 { return None; }
        FieldEnds(s, '.', start, i, rest);
        var octet := ParseUint(s[start..i], 255);
        OctetStep(out, rest, octet);
        if octet.None? { return None; }
        out := out + [octet.value];
        rest := rest[1..];
        start := i + 1;
      }
    }
    EmptyOctets();
    assert out + [] == out;
    return if |out| == 4 then Some(out) else None;
  }

  /** Scanning position `i` of a split: `rest` are the fields from `start` on, and none ended since. */
  ghost predicate AtField(s: string, sep: char, start: nat, i: nat, rest: seq<string>)
    requires start <= i
  {
    if start <= |s| then i <= |s| && rest == Split(s[start..], sep) && forall k :: start <= k < i ==> s[k] != sep
    else rest == []
  }

  lemma {:induction false} FieldEnds(s: string, sep: char, start: nat, i: nat, rest: seq<string>)
    requires start <= i <= |s| && AtField(s, sep, start, i, rest) && (i < |s| ==> s[i] == sep)
    ensures rest != [] && rest[0] == s[start..i] && AtField(s, sep, i + 1, i + 1, rest[1..])
  {
    hide IndexOf;
    SplitStep(s[start..], sep, i - start);
    assert s[start..][..i - start] == s[start..i];
    if i < |s| {
      assert s[start..][i - start + 1..] == s[i + 1..];
      assert rest[1..] == Split(s[i + 1..], sep);
    }
  }

  /** The first field ends at the first separator. */
  lemma {:induction false} SplitStep(s: string, sep: char, i: nat)
    requires i <= |s| && (forall k :: 0 <= k < i ==> s[k] != sep) && (i < |s| ==> s[i] == sep)
    ensures Split(s, sep) == [s[..i]] + if i == |s| then [] else Split(s[i + 1..], sep)
  {
    FirstIs(s, sep, i);
    assert s[..|s|] == s;
  }

  // ---- IPv6 ----------------------------------------------------------------

  function HexVal(c: char): (v: int)
    ensures -1 <= v < 16
  {
    if IsDigit(c) then c as int - '0' as int
    else if 'a' <= c <= 'f' then c as int - 'a' as int + 10
    else if 'A' <= c <= 'F' then c as int - 'A' as int + 10
    else -1
  }

  predicate AllHex(s: string) {
    forall k :: 0 <= k < |s| ==> HexVal(s[k]) >= 0
  }

  function HexValue(s: string): nat
    requires AllHex(s)
  {
    if s == "" then 0 else 16 * HexValue(s[..|s| - 1]) + HexVal(s[|s| - 1])
  }

  function Pow16(n: nat): (p: nat)
    ensures p >= 1
  {
    if n == 0 then 1 else 16 * Pow16(n - 1)
  }

  lemma {:induction false} HexBound(s: string)
    requires AllHex(s)
    ensures HexValue(s) < Pow16(|s|)
  {
    if s != "" {
      HexBound(s[..|s| - 1]);
    }
  }

  lemma {:induction false} Pow16Mono(m: nat, n: nat)
    requires m <= n
    ensures Pow16(m) <= Pow16(n)
  {
    if m < n {
      Pow16Mono(m, n - 1);
    }
  }

  /** The two bytes of a group of one to four hex digits. */
  function Hextet(tok: string): Option<seq<Byte>> {
    if tok == "" || |tok| > 4 || !AllHex(tok) then None
    else
      HexBound(tok);
      Pow16Mono(|tok|, 4);
      assert Pow16(4) == 65536;
      Some([HexValue(tok) / 256, HexValue(tok) % 256])
  }

  /** The bytes of one group; a dotted quad is allowed as the last one. */
  function Group(tok: string, last: bool): Option<seq<Byte>> {
    if '.' in tok then if last then Ipv4(tok) else None else Hextet(tok)
  }

  /** The bytes of colon-separated groups. */
  function GroupBytes(toks: seq<string>): Option<seq<Byte>> {
    if toks == [] then Some([]) else Append(Group(toks[0], |toks| == 1), GroupBytes(toks[1..]))
  }

  function Bounded(bytes: Option<seq<Byte>>): Option<seq<Byte>> {
    if bytes.Some? && |bytes.value| <= 16 then bytes else None
  }

  /** One side of an IPv6 text: no `::` inside, at most 16 bytes. */
  function V6Part(part: string): Option<seq<Byte>> {
    if part == "" then Some([]) else Bounded(GroupBytes(Split(part, ':')))
  }

  method ParseHextet(tok: string) returns (r: Option<seq<Byte>>)
    requires tok != ""
    ensures r == Hextet(tok)
  {
    if |tok| > 4 { return None; }
    var value := 0;
    for i := 0 to |tok|
      invariant AllHex(tok[..i]) && value == HexValue(tok[..i])
    {
      assert tok[..i + 1][..i] == tok[..i];
      var h := HexVal(tok[i]);
      if h < 0 { return None; }
      value := value * 16 + h;
    }
    assert tok[..|tok|] == tok;
    HexBound(tok);
    Pow16Mono(|tok|, 4);
    assert Pow16(4) == 65536;
    return Some([value / 256 % 256, value % 256]);
  }

  method ParseGroup(tok: string, last: bool) returns (r: Option<seq<Byte>>)
    ensures r == Group(tok, last)
  {
    if tok == "" { return None; }
    if '.' in tok {
      if !last { return None; }
      r := ParseIpv4(tok);
    } else {
      r := ParseHextet(tok);
    }
  }

  method ParseV6Part(part: string) returns (r: Option<seq<Byte>>)
    ensures r == V6Part(part)
  {
    hide Group;
    if part == "" { return Some([]); }
    var out: seq<Byte> := [];
    var start := 0;
    ghost var rest := Split(part, ':');
    ghost var whole := GroupBytes(rest);
    assert part[0..] == part;
    AppendAssoc(whole, None, None);
    for i := 0 to |part| + 1
      invariant start <= i && |out| <= 16
      invariant AtField(part, ':', start, i, rest)
      invariant whole == Append(Some(out), GroupBytes(rest))
    {
      if i == |part| || part[i] == ':' {
        FieldEnds(part, ':', start, i, rest);
        LastField(part, ':', start, i, rest);
        var bytes := ParseGroup(part[start..i], i == |part|);
        GroupStep(out, rest, bytes);
        if bytes.None? { return None; }
        if |out| + |bytes.value| > 16 { return None; }
        out := out + bytes.value;
        rest := rest[1..];
        start := i + 1;
      }
    }
    assert out + [] == out;
    return Some(out);
  }

  lemma {:induction false} GroupStep(out: seq<Byte>, rest: seq<string>, bytes: Option<seq<Byte>>)
    requires rest != [] && bytes == Group(rest[0], |rest| == 1)
    ensures Append(Some(out), GroupBytes(rest)) == Append(Append(Some(out), bytes), GroupBytes(rest[1..]))
  {
    AppendAssoc(Some(out), bytes, GroupBytes(rest[1..]));
  }

  /** A field is the last one exactly when it ends at the end of the text. */
  lemma {:induction false} LastField(s: string, sep: char, start: nat, i: nat, rest: seq<string>)
    requires start <= i <= |s| && AtField(s, sep, start, i, rest) && (i < |s| ==> s[i] == sep)
    ensures |rest| == 1 <==> i == |s|
  {
    FieldEnds(s, sep, start, i, rest);
  }

  function Zeros(n: nat): seq<Byte> {
    seq(n, i => 0)
  }

  /** Position of the first `::` at or after `from`, or `|s|`. */
  function FindDouble(s: string, from: nat): (i: nat)
    ensures i <= |s|
    ensures i < |s| ==> from <= i && i + 1 < |s| && s[i] == ':' && s[i + 1] == ':'
    ensures forall k :: from <= k < i && k + 1 < |s| ==> !(s[k] == ':' && s[k + 1] == ':')
    decreases |s| - from
  {
    if from + 1 >= |s| then |s|
    else if s[from] == ':' && s[from + 1] == ':' then from
    else FindDouble(s, from + 1)
  }

  /** Without a surrounding `[...]` and without a `%zone`. */
  function BareV6(s: string): string {
    var inner := if |s| >= 2 && s[0] == '[' && s[|s| - 1] == ']' then s[1..|s| - 1] else s;
    inner[..IndexOf(inner, '%')]
  }

  /** `head::tail` fills the middle with at least one zero group. */
  function Elided(head: Option<seq<Byte>>, tail: Option<seq<Byte>>): Option<seq<Byte>> {
    if head.Some? && tail.Some? && |head.value| + |tail.value| <= 14
    then Some(head.value + Zeros(16 - |head.value| - |tail.value|) + tail.value)
    else None
  }

  function Ipv6(text: string): (r: Option<seq<Byte>>)
    ensures r.Some? ==> |r.value| == 16
  {
    var s := BareV6(text);
    var dc := FindDouble(s, 0);
    if s == "" then None
    else if dc < |s| then
      if FindDouble(s, dc + 1) < |s| then None else Elided(V6Part(s[..dc]), V6Part(s[dc + 2..]))
    else if V6Part(s).Some? && |V6Part(s).value| == 16 then V6Part(s)
    else None
  }

  method ParseIpv6(text: string) returns (r: Option<seq<Byte>>)
    ensures r == Ipv6(text)
  {
    hide V6Part, BareV6, FindDouble, IndexOf;
    var s := BareV6(text);
    if s == "" { return None; }
    var dc := FindDouble(s, 0);
    if dc < |s| {
      if FindDouble(s, dc + 1) < |s| { return None; }
      var head := ParseV6Part(s[..dc]);
      var tail := ParseV6Part(s[dc + 2..]);
      if head.None? || tail.None? || |head.value| + |tail.value| > 14 { return None; }
      var buf := head.value + Zeros(16)[|head.value|..];
      buf := buf[..16 - |tail.value|] + tail.value;
      assert buf == Elided(head, tail).value;
      return Some(buf);
    }
    var full := ParseV6Part(s);
    if full.None? || |full.value| != 16 { return None; }
    return full;
  }

  function ParseIp(text: string): (a: IpAddr)
    ensures a.WellSized()
  {
    var t := Trim(text, false);
    if Ipv4(t).Some? then V4(Ipv4(t).value)
    else if Ipv6(t).Some? then V6(Ipv6(t).value)
    else Invalid
  }
}
