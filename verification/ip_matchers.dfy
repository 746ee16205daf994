/**
 The match-val-type matchers over parsed addresses. Their specifications are the
 integer statements of `Subnets`; the byte and bit loops are proved to decide them.
 */
module IpMatchers {
  import opened Text
  import opened Matchers
  import opened Subnets

  predicate MatchExact(subject: string, pattern: string, caseInsensitive: bool) {
    if caseInsensitive then IEquals(subject, pattern) else subject == pattern
  }

  /** A single trailing dot is the root label and does not count. */
  function WithoutRoot(name: string): string {
    if |name| > 1 && name[|name| - 1] == '.' then name[..|name| - 1] else name
  }

  predicate MatchFqdn(subject: string, pattern: string) {
    var s, p := WithoutRoot(subject), WithoutRoot(pattern);
    s != "" && p != "" && IEquals(s, p)
  }

  predicate MatchIp(subject: string, pattern: string) {
    var a, b := ParseIp(subject), ParseIp(pattern);
    a.SameFamily(b) && a.bytes == b.bytes
  }

  /** Bit `i` of a byte string, most significant first. */
  predicate Bit(bytes: seq<Byte>, i: nat)
    requires i < 8 * |bytes|
  {
    bytes[i / 8] / Pow2(7 - i % 8) % 2 == 1
  }

  /** A mask of exactly `p` leading ones. */
  predicate LeadingOnes(mask: seq<Byte>, p: nat)
    requires p <= 8 * |mask|
  {
    forall i :: 0 <= i < 8 * |mask| ==> (Bit(mask, i) <==> i < p)
  }

  /** The prefix length a contiguous mask stands for; None when a one follows a zero. */
  ghost function MaskLength(mask: seq<Byte>): (r: Option<nat>)
    ensures r.Some? ==> r.value <= 8 * |mask|
  {
    if exists p :: 0 <= p <= 8 * |mask| && LeadingOnes(mask, p) then
      var p :| 0 <= p <= 8 * |mask| && LeadingOnes(mask, p);
      Some(p)
    else None
  }

  lemma {:induction false} MaskLengthUnique(mask: seq<Byte>, p: nat)
    requires p <= 8 * |mask| && LeadingOnes(mask, p)
    ensures MaskLength(mask) == Some(p)
  {
    var q := MaskLength(mask).value;
    assert p < 8 * |mask| ==> !Bit(mask, p);
    assert q < 8 * |mask| ==> !Bit(mask, q);
  }

  method MaskPrefix(mask: seq<Byte>) returns (r: Option<nat>)
    ensures r == MaskLength(mask)
  {
    var prefix, seenZero := 0, false;
    for i := 0 to |mask|
      invariant prefix <= 8 * i && (if seenZero then prefix < 8 * i else prefix == 8 * i)
      invariant forall k :: 0 <= k < 8 * i ==> (Bit(mask, k) <==> k < prefix)
    {
      for j := 0 to 8
        invariant prefix <= 8 * i + j && (if seenZero then prefix < 8 * i + j else prefix == 8 * i + j)
        invariant forall k :: 0 <= k < 8 * i + j ==> (Bit(mask, k) <==> k < prefix)
      {
        assert (8 * i + j) / 8 == i && (8 * i + j) % 8 == j;
        var one := mask[i] / Pow2(7 - j) % 2 == 1;
        assert one == Bit(mask, 8 * i + j);
        if one {
          if seenZero {
            Gap(mask, prefix, 8 * i + j);
            return None;
          }
          prefix := prefix + 1;
        } else {
          seenZero := true;
        }
      }
    }
    MaskLengthUnique(mask, prefix);
    return Some(prefix);
  }

  lemma {:induction false} Gap(mask: seq<Byte>, zero: nat, one: nat)
    requires zero < one < 8 * |mask| && !Bit(mask, zero) && Bit(mask, one)
    ensures MaskLength(mask) == None
  {
    forall p | 0 <= p <= 8 * |mask|
      ensures !LeadingOnes(mask, p)
    {
      assert (Bit(mask, zero) <==> zero < p) && (Bit(mask, one) <==> one < p) ==> false;
    }
  }

  /** The prefix length written after the '/': a dotted mask of the same family, or a number. */
  ghost function PrefixLength(suffix: string, net: IpAddr): (r: Option<nat>)
    requires !net.Invalid? && net.WellSized()
    ensures r.Some? ==> r.value <= 8 * |net.bytes|
  {
    var dotted := ParseIp(suffix);
    if dotted.SameFamily(net) then MaskLength(dotted.bytes) else Uint(suffix, 8 * |net.bytes|)
  }

  /** The addresses agree on the quotient by the size of a `/p` block. */
  predicate SameBlock(a: seq<Byte>, b: seq<Byte>, p: nat)
    requires |a| == |b| && p <= 8 * |a|
  {
    Num(a) / Pow2(8 * |a| - p) == Num(b) / Pow2(8 * |a| - p)
  }

  /** Subnet membership of an address text in a `net/suffix` text. */
  ghost predicate InSubnet(subject: string, pattern: string) {
    var slash := IndexOf(pattern, '/');
    slash < |pattern| &&
    InNet(ParseIp(subject), ParseIp(Trim(pattern[..slash], false)), Trim(pattern[slash + 1..], false))
  }

  ghost predicate InNet(subject: IpAddr, net: IpAddr, suffix: string)
    requires subject.WellSized() && net.WellSized()
  {
    subject.SameFamily(net) && PrefixLength(suffix, net).Some? &&
    SameBlock(subject.bytes, net.bytes, PrefixLength(suffix, net).value)
  }

  method MatchIpMask(subject: string, pattern: string) returns (r: bool)
    ensures r == InSubnet(subject, pattern)
  {
    hide InNet, ParseIp, Trim, IndexOf;
    var slash := IndexOf(pattern, '/');
    if slash == |pattern| { return false; }
    r := MatchNet(ParseIp(subject), ParseIp(Trim(pattern[..slash], false)), Trim(pattern[slash + 1..], false));
  }

  method MatchNet(subject: IpAddr, net: IpAddr, suffix: string) returns (r: bool)
    requires subject.WellSized() && net.WellSized()
    ensures r == InNet(subject, net, suffix)
  {
    hide ParseIp, Num, Pow2, BitAnd, HighMask, DecimalValue;
    if !subject.SameFamily(net) { return false; }
    var dotted := ParseIp(suffix);
    var prefix: Option<nat>;
    if dotted.SameFamily(net) {
      prefix := MaskPrefix(dotted.bytes);
    } else {
      prefix := ParseUint(suffix, 8 * |net.bytes|);
    }
    if prefix.None? { return false; }
    LeadingBitsAreQuotient(subject.bytes, net.bytes, prefix.value);
    var fullBytes, remBits := prefix.value / 8, prefix.value % 8;
    if subject.bytes[..fullBytes] != net.bytes[..fullBytes] { return false; }
    if remBits != 0 {
      var mask := HighMask(remBits);
      if BitAnd(subject.bytes[fullBytes], mask) != BitAnd(net.bytes[fullBytes], mask) { return false; }
    }
    return true;
  }

  /** Membership in a range text `low-high`, as integer order within one family. */
  predicate InRange(subject: string, pattern: string) {
    var dash := IndexOf(pattern, '-');
    dash < |pattern| &&
    Between(ParseIp(Trim(pattern[..dash], false)), ParseIp(subject), ParseIp(Trim(pattern[dash + 1..], false)))
  }

  predicate Between(lo: IpAddr, x: IpAddr, hi: IpAddr) {
    lo.SameFamily(hi) && lo.SameFamily(x) && Num(lo.bytes) <= Num(x.bytes) <= Num(hi.bytes)
  }

  method MatchIpRange(subject: string, pattern: string) returns (r: bool)
    ensures r == InRange(subject, pattern)
  {
    hide ParseIp, Trim, IndexOf, Num, Memcmp;
    var dash := IndexOf(pattern, '-');
    if dash == |pattern| { return false; }
    var lo := ParseIp(Trim(pattern[..dash], false));
    var hi := ParseIp(Trim(pattern[dash + 1..], false));
    var subj := ParseIp(subject);
    if lo.Invalid? || hi.Invalid? || subj.Invalid? { return false; }
    if !lo.SameFamily(hi) || !lo.SameFamily(subj) { return false; }
    MemcmpIsOrder(subj.bytes, lo.bytes);
    MemcmpIsOrder(subj.bytes, hi.bytes);
    return Memcmp(subj.bytes, lo.bytes) >= 0 && Memcmp(subj.bytes, hi.bytes) <= 0;
  }

  /** A /p test answers membership in the interval of addresses around the network. */
  lemma {:induction false} SubnetIsInterval(subject: IpAddr, net: IpAddr, p: nat)
    requires subject.WellSized() && net.WellSized() && subject.SameFamily(net) && p <= 8 * |net.bytes|
    ensures InNet(subject, net, Decimal(p)) <==>
            var k := 8 * |net.bytes| - p;
            BlockBase(Num(net.bytes), k) <= Num(subject.bytes) <= BlockBase(Num(net.bytes), k) + Pow2(k) - 1
  {
    hide ParseIp, Num, Pow2, BlockBase, Decimal, PrefixLength;
    DecimalPrefix(p, net);
    QuotientIsInterval(Num(subject.bytes), Num(net.bytes), 8 * |net.bytes| - p);
  }

  /** A dotted mask is accepted exactly when its ones lead, and then means its /p form. */
  lemma {:induction false} DottedMaskIsPrefix(subject: IpAddr, net: IpAddr, mask: string, p: nat)
    requires subject.WellSized() && net.WellSized() && subject.SameFamily(net)
    requires ParseIp(mask).SameFamily(net) && p <= 8 * |net.bytes|
    ensures InNet(subject, net, mask) ==> exists q :: 0 <= q <= 8 * |net.bytes| && LeadingOnes(ParseIp(mask).bytes, q)
    ensures LeadingOnes(ParseIp(mask).bytes, p) ==> (InNet(subject, net, mask) <==> InNet(subject, net, Decimal(p)))
  {
    DecimalPrefix(p, net);
    if LeadingOnes(ParseIp(mask).bytes, p) {
      MaskLengthUnique(ParseIp(mask).bytes, p);
    }
  }

  /** A printed number is never read as an address, only as a prefix length. */
  lemma {:induction false} DecimalPrefix(p: nat, net: IpAddr)
    requires !net.Invalid? && net.WellSized() && p <= 8 * |net.bytes|
    ensures PrefixLength(Decimal(p), net) == Some(p)
  {
    DecimalRoundTrip(p);
    DigitsAreNoAddress(Decimal(p));
    assert forall k :: 0 <= k < |Decimal(p)| ==> Decimal(p)[k] in Decimal(p);
  }

  lemma {:induction false} DigitsAreNoAddress(s: string)
    requires s != "" && forall k :: 0 <= k < |s| ==> IsDigit(s[k])
    ensures ParseIp(s) == Invalid
  {
    hide Trim, Ipv4, Ipv6;
    TrimPadded("", s, "", false);
    assert "" + s + "" == s;
    DigitsAreNoIpv4(s);
    DigitsAreNoIpv6(s);
  }

  lemma {:induction false} DigitsAreNoIpv4(s: string)
    requires s != "" && forall k :: 0 <= k < |s| ==> IsDigit(s[k])
    ensures Ipv4(s) == None
  {
    hide Octets;
    FirstIs(s, '.', |s|);
    assert Split(s, '.') == [s];
  }

  lemma {:induction false} DigitsAreNoIpv6(s: string)
    requires s != "" && forall k :: 0 <= k < |s| ==> IsDigit(s[k])
    ensures Ipv6(s) == None
  {
    hide V6Part, FindDouble;
    FirstIs(s, '%', |s|);
    assert BareV6(s) == s;
    DigitsAreOneGroup(s);
  }

  /** Digits alone are at most one group of two bytes, or a malformed one. */
  lemma {:induction false} DigitsAreOneGroup(s: string)
    requires s != "" && forall k :: 0 <= k < |s| ==> IsDigit(s[k])
    ensures V6Part(s).Some? ==> |V6Part(s).value| < 16
  {
    FirstIs(s, ':', |s|);
    assert Split(s, ':') == [s];
    assert GroupBytes([s]) == Append(Group(s, true), Some([]));
  }
}
