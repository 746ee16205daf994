/**
 Laws of the IPv6 text form: `::` stands for the zero groups it elides, a dotted
 IPv4 tail stands for its two groups, and printing eight groups reads back.
 */
module Ipv6Text {
  import opened Text
  import opened Matchers

  function Join(toks: seq<string>): string {
    if toks == [] then ""
    else if |toks| == 1 then toks[0]
    else toks[0] + ":" + Join(toks[1..])
  }

  /** A group text: hex digits, or digits and dots. No separator, bracket or zone mark. */
  predicate GroupText(t: string) {
    t != "" && forall k :: 0 <= k < |t| ==> HexVal(t[k]) >= 0 || t[k] == '.'
  }

  predicate GroupTexts(toks: seq<string>) {
    forall k :: 0 <= k < |toks| ==> GroupText(toks[k])
  }

  predicate IsHextet(t: string) {
    Hextet(t).Some?
  }

  predicate Hextets(toks: seq<string>) {
    forall k :: 0 <= k < |toks| ==> IsHextet(toks[k])
  }

  lemma {:induction false} HextetsAreTexts(toks: seq<string>)
    requires Hextets(toks)
    ensures GroupTexts(toks)
  {
    forall k | 0 <= k < |toks|
      ensures GroupText(toks[k])
    {
      assert IsHextet(toks[k]);
    }
  }

  lemma {:induction false} SplitJoin(toks: seq<string>)
    requires toks != [] && GroupTexts(toks)
    ensures Split(Join(toks), ':') == toks
  {
    var t := toks[0];
    assert GroupText(t);
    var s := Join(toks);
    if |toks| == 1 {
      SplitStep(s, ':', |t|);
      assert s[..|t|] == t;
    } else {
      SplitJoin(toks[1..]);
      assert s[..|t|] == t && s[|t| + 1..] == Join(toks[1..]);
      assert forall k :: 0 <= k < |t| ==> s[k] == t[k];
      SplitStep(s, ':', |t|);
    }
  }

  /** Colons in a joined text are single, and never first or last. */
  lemma {:induction false} JoinColons(toks: seq<string>)
    requires GroupTexts(toks)
    ensures forall k :: 0 <= k < |Join(toks)| && Join(toks)[k] == ':' ==>
              0 < k && k + 1 < |Join(toks)| && Join(toks)[k + 1] != ':'
    ensures toks != [] ==> Join(toks) != ""
    ensures forall k :: 0 <= k < |Join(toks)| ==> Join(toks)[k] != '%' && Join(toks)[k] != '['
  {
    if toks != [] {
      var t := toks[0];
      assert GroupText(t);
      if |toks| > 1 {
        var rest := Join(toks[1..]);
        JoinColons(toks[1..]);
        var s := Join(toks);
        assert forall k :: 0 <= k < |t| ==> s[k] == t[k];
        assert s[|t|] == ':';
        assert forall k :: |t| < k < |s| ==> s[k] == rest[k - |t| - 1];
      }
    }
  }

  lemma {:induction false} PartOfJoin(toks: seq<string>)
    requires GroupTexts(toks)
    ensures V6Part(Join(toks)) == Bounded(GroupBytes(toks))
  {
    JoinColons(toks);
    if toks != [] {
      SplitJoin(toks);
    }
  }

  /** A text without brackets and zone is read as it stands. */
  lemma {:induction false} BareIsItself(s: string)
    requires s != "" ==> s[0] != '['
    requires forall k :: 0 <= k < |s| ==> s[k] != '%'
    ensures BareV6(s) == s
  {
    FirstIs(s, '%', |s|);
  }

  /** The only `::` of `head::tail` is where it was written. */
  lemma {:induction false} OneDouble(head: string, tail: string)
    requires forall k :: 0 <= k < |head| && head[k] == ':' ==> k + 1 < |head| && head[k + 1] != ':'
    requires forall k :: 0 <= k < |tail| && tail[k] == ':' ==> 0 < k && k + 1 < |tail| && tail[k + 1] != ':'
    ensures var s := head + "::" + tail;
            && FindDouble(s, 0) == |head| && FindDouble(s, |head| + 1) == |s|
            && s[..|head|] == head && s[|head| + 2..] == tail
  {
    var s := head + "::" + tail;
    var n := |head|;
    assert forall k :: 0 <= k < n ==> s[k] == head[k];
    assert s[n] == ':' && s[n + 1] == ':';
    assert forall k :: n + 2 <= k < |s| ==> s[k] == tail[k - n - 2];
  }

  /** Reading `head::tail` from its groups. */
  lemma {:induction false} ReadElided(head: seq<string>, tail: seq<string>)
    requires GroupTexts(head) && GroupTexts(tail)
    ensures Ipv6(Join(head) + "::" + Join(tail)) == Elided(Bounded(GroupBytes(head)), Bounded(GroupBytes(tail)))
  {
    hide V6Part, GroupBytes, IndexOf, FindDouble, Join;
    JoinColons(head);
    JoinColons(tail);
    var s := Join(head) + "::" + Join(tail);
    OneDouble(Join(head), Join(tail));
    assert forall k :: 0 <= k < |s| ==> s[k] != '%' && s[k] != '[';
    BareIsItself(s);
    PartOfJoin(head);
    PartOfJoin(tail);
  }

  /** Reading a text without `::` from its groups. */
  lemma {:induction false} ReadFull(toks: seq<string>)
    requires GroupTexts(toks) && toks != []
    ensures Ipv6(Join(toks)) ==
            if GroupBytes(toks).Some? && |GroupBytes(toks).value| == 16 then GroupBytes(toks) else None
  {
    JoinColons(toks);
    var s := Join(toks);
    assert FindDouble(s, 0) == |s|;
    BareIsItself(s);
    PartOfJoin(toks);
  }

  /** Groups before the last are read independently of what follows. */
  lemma {:induction false} GroupsAppend(front: seq<string>, back: seq<string>)
    requires Hextets(front)
    ensures GroupBytes(front + back) == Append(GroupBytes(front), GroupBytes(back))
  {
    AppendAssoc(GroupBytes(back), None, None);
    if front == [] {
      assert front + back == back;
    } else {
      GroupsAppend(front[1..], back);
      assert (front + back)[1..] == front[1..] + back;
      assert IsHextet(front[0]);
      AppendAssoc(Hextet(front[0]), GroupBytes(front[1..]), GroupBytes(back));
    }
  }

  lemma {:induction false} HextetsRead(toks: seq<string>)
    requires Hextets(toks)
    ensures GroupBytes(toks).Some? && |GroupBytes(toks).value| == 2 * |toks|
  {
    if toks != [] {
      assert IsHextet(toks[0]);
      HextetsRead(toks[1..]);
    }
  }

  function ZeroGroups(n: nat): (toks: seq<string>)
    ensures |toks| == n && Hextets(toks)
  {
    ZeroHextet();
    seq(n, i => "0")
  }

  lemma {:induction false} ZeroHextet()
    ensures Hextet("0") == Some([0, 0])
  {
    assert "0"[..0] == "";
    assert HexValue("0") == 0;
  }

  lemma {:induction false} ZeroBytes(n: nat)
    ensures GroupBytes(ZeroGroups(n)) == Some(Zeros(2 * n))
  {
    if n == 0 {
      assert ZeroGroups(0) == [] && Zeros(0) == [];
    } else {
      ZeroBytes(n - 1);
      ZeroHextet();
      assert ZeroGroups(n)[1..] == ZeroGroups(n - 1);
      assert [0, 0] + Zeros(2 * (n - 1)) == Zeros(2 * n);
    }
  }

  /** `head::tail` reads as the same sixteen bytes as with the zero groups written out. */
  lemma {:induction false} ElisionIsZeros(head: seq<string>, tail: seq<string>)
    requires Hextets(head) && Hextets(tail) && |head| + |tail| <= 7
    ensures Ipv6(Join(head) + "::" + Join(tail)).Some?
    ensures Ipv6(Join(head) + "::" + Join(tail)) == Ipv6(Join(head + ZeroGroups(8 - |head| - |tail|) + tail))
  {
    hide Ipv6, GroupBytes, Join, ZeroGroups, IsHextet, Hextets, GroupTexts;
    HextetsAreTexts(head);
    HextetsAreTexts(tail);
    HextetsRead(head);
    HextetsRead(tail);
    ReadElided(head, tail);
    WrittenOut(head, 8 - |head| - |tail|, tail);
    ReadFull(head + ZeroGroups(8 - |head| - |tail|) + tail);
  }

  lemma {:induction false} WrittenOut(head: seq<string>, n: nat, tail: seq<string>)
    requires Hextets(head) && Hextets(tail) && n > 0
    ensures GroupTexts(head + ZeroGroups(n) + tail) && head + ZeroGroups(n) + tail != []
    ensures GroupBytes(head).Some? && GroupBytes(tail).Some?
    ensures GroupBytes(head + ZeroGroups(n) + tail) ==
            Some(GroupBytes(head).value + Zeros(2 * n) + GroupBytes(tail).value)
  {
    hide GroupBytes, IsHextet, ZeroGroups;
    var zeros := ZeroGroups(n);
    HextetsRead(head);
    HextetsRead(tail);
    HextetsAreTexts(head + zeros + tail);
    GroupsAppend(head + zeros, tail);
    GroupsAppend(head, zeros);
    ZeroBytes(n);
  }

  /** A dotted quad as last group is its two hextets, in any position of the text. */
  lemma {:induction false} DottedTailIsTwoHextets(front: seq<string>, dotted: string, x: string, y: string)
    requires Hextets(front) && GroupText(dotted) && '.' in dotted && Ipv4(dotted).Some?
    requires Hextet(x) == Some(Ipv4(dotted).value[..2]) && Hextet(y) == Some(Ipv4(dotted).value[2..])
    ensures GroupBytes(front + [dotted]) == GroupBytes(front + [x, y])
    ensures Ipv6(Join(front + [dotted])) == Ipv6(Join(front + [x, y]))
    ensures forall head :: GroupTexts(head) ==>
              Ipv6(Join(head) + "::" + Join(front + [dotted])) == Ipv6(Join(head) + "::" + Join(front + [x, y]))
  {
    var quad := Ipv4(dotted).value;
    TwoGroups(dotted, x, y);
    GroupsAppend(front, [dotted]);
    GroupsAppend(front, [x, y]);
    HextetsAreTexts(front);
    HextetsAreTexts([x, y]);
    ReadFull(front + [dotted]);
    ReadFull(front + [x, y]);
    forall head | GroupTexts(head)
      ensures Ipv6(Join(head) + "::" + Join(front + [dotted])) == Ipv6(Join(head) + "::" + Join(front + [x, y]))
    {
      ReadElided(head, front + [dotted]);
      ReadElided(head, front + [x, y]);
    }
  }

  lemma {:induction false} TwoGroups(dotted: string, x: string, y: string)
    requires '.' in dotted && Ipv4(dotted).Some?
    requires Hextet(x) == Some(Ipv4(dotted).value[..2]) && Hextet(y) == Some(Ipv4(dotted).value[2..])
    ensures GroupBytes([dotted]) == Ipv4(dotted) == GroupBytes([x, y])
    ensures IsHextet(x) && IsHextet(y)
  {
    var quad := Ipv4(dotted).value;
    AppendAssoc(Ipv4(dotted), None, None);
    AppendAssoc(Hextet(y), None, None);
    assert GroupBytes([y]) == Append(Group(y, true), Some([]));
    assert [x, y][1..] == [y];
    assert quad[..2] + quad[2..] == quad;
  }

  function HexDigit(n: nat): (c: char)
    requires n < 16
    ensures HexVal(c) == n
  {
    if n < 10 then '0' + n as char else 'a' + (n - 10) as char
  }

  /** A group as hex digits without leading zeros. */
  function HexText(n: nat): (s: string)
    ensures s != "" && AllHex(s) && HexValue(s) == n
  {
    if n < 16 then
      var s := [HexDigit(n)];
      assert s[..0] == "";
      s
    else
      var s := HexText(n / 16) + [HexDigit(n % 16)];
      assert s[..|s| - 1] == HexText(n / 16);
      s
  }

  lemma {:induction false} HexTextShort(n: nat, k: nat)
    requires k > 0 && n < Pow16(k)
    ensures |HexText(n)| <= k
  {
    if n >= 16 {
      HexTextShort(n / 16, k - 1);
    }
  }

  /** The 16-bit value of two bytes. */
  function Pair(hi: nat, lo: nat): nat {
    256 * hi + lo
  }

  lemma {:induction false} PrintedPair(hi: Byte, lo: Byte)
    ensures Hextet(HexText(Pair(hi, lo))) == Some([hi, lo])
    ensures IsHextet(HexText(Pair(hi, lo)))
    ensures '.' !in HexText(Pair(hi, lo))
  {
    assert Pow16(4) == 65536;
    HexTextShort(Pair(hi, lo), 4);
    var s := HexText(Pair(hi, lo));
    assert forall k :: 0 <= k < |s| ==> HexVal(s[k]) >= 0;
  }

  /** The groups of an even number of bytes, printed. */
  function PrintGroups(bytes: seq<Byte>): (toks: seq<string>)
    requires |bytes| % 2 == 0
    ensures |toks| == |bytes| / 2
  {
    if bytes == [] then [] else [HexText(Pair(bytes[0], bytes[1]))] + PrintGroups(bytes[2..])
  }

  lemma {:induction false} PrintedGroupsRead(bytes: seq<Byte>)
    requires |bytes| % 2 == 0
    ensures Hextets(PrintGroups(bytes)) && GroupBytes(PrintGroups(bytes)) == Some(bytes)
  {
    if bytes != [] {
      PrintedGroupsRead(bytes[2..]);
      PrintedPair(bytes[0], bytes[1]);
      assert bytes == [bytes[0], bytes[1]] + bytes[2..];
    }
  }

  /** Printing eight groups and parsing returns the address. */
  lemma {:induction false} PrintParse(bytes: seq<Byte>)
    requires |bytes| == 16
    ensures Ipv6(Join(PrintGroups(bytes))) == Some(bytes)
  {
    PrintedGroupsRead(bytes);
    HextetsAreTexts(PrintGroups(bytes));
    ReadFull(PrintGroups(bytes));
  }
}
