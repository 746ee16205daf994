/**
 String literals of the generated C++: escaping a byte string, and reading an escaped
 literal the way a C++ compiler does, with octal escapes of one to three digits.
 */
module CppLiterals {
  import opened Text

  /** A string of bytes. */
  predicate Bytes(s: string) {
    forall k :: 0 <= k < |s| ==> s[k] as int < 256
  }

  function OctalDigit(n: nat): char
    requires n < 8
  {
    ('0' as int + n) as char
  }

  predicate IsOctal(c: char) {
    '0' <= c <= '7'
  }

  /** Three octal digits, always three. */
  function Octal(c: char): string
    requires c as int < 256
  {
    ['\\', OctalDigit(c as int / 64), OctalDigit(c as int / 8 % 8), OctalDigit(c as int % 8)]
  }

  function EscByte(c: char): string
    requires c as int < 256
  {
    if c == '\\' then ['\\', '\\']
    else if c == '"' then ['\\', '"']
    else if c == '\n' then ['\\', 'n']
    else if c == '\r' then ['\\', 'r']
    else if c == '\t' then ['\\', 't']
    else if c as int < 0x20 || c as int >= 0x7f then Octal(c)
    else [c]
  }

  function Escaped(s: string): string
    requires Bytes(s)
  {
    if s == "" then "" else EscByte(s[0]) + Escaped(s[1..])
  }

  method Esc(s: string) returns (out: string)
    requires Bytes(s)
    ensures out == Escaped(s)
  {
    hide EscByte;
    out := "";
    assert s[0..] == s;
    for i := 0 to |s|
      invariant out + Escaped(s[i..]) == Escaped(s)
    {
      assert s[i..][1..] == s[i + 1..];
      assert (out + EscByte(s[i])) + Escaped(s[i + 1..]) == out + (EscByte(s[i]) + Escaped(s[i + 1..]));
      out := out + EscByte(s[i]);
    }
  }

  /** The byte a one-letter escape stands for. */
  function SimpleEscape(c: char): Option<char> {
    if c == '\\' || c == '"' || c == '\'' || c == '?' then Some(c)
    else if c == 'n' then Some('\n')
    else if c == 'r' then Some('\r')
    else if c == 't' then Some('\t')
    else if c == 'a' then Some(7 as char)
    else if c == 'b' then Some(8 as char)
    else if c == 'v' then Some(11 as char)
    else if c == 'f' then Some(12 as char)
    else None
  }

  /** How many octal digits an escape takes: as many as follow, up to three. */
  function OctalRun(text: string, max: nat): (n: nat)
    ensures n <= max && n <= |text|
  {
    if max == 0 || text == "" || !IsOctal(text[0]) then 0 else 1 + OctalRun(text[1..], max - 1)
  }

  function OctalValue(digits: string): nat
    requires forall k :: 0 <= k < |digits| ==> IsOctal(digits[k])
  {
    if digits == "" then 0
    else
      assert IsOctal(digits[|digits| - 1]);
      OctalValue(digits[..|digits| - 1]) * 8 + (digits[|digits| - 1] as int - '0' as int)
  }

  lemma {:induction false} OctalRunDigits(text: string, max: nat)
    ensures forall k :: 0 <= k < OctalRun(text, max) ==> IsOctal(text[k])
  {
    if max > 0 && text != "" && IsOctal(text[0]) {
      OctalRunDigits(text[1..], max - 1);
    }
  }

  function Before(c: char, rest: Option<string>): Option<string> {
    if rest.None? then None else Some([c] + rest.value)
  }

  /** The bytes a literal body denotes; None when it is ill formed, ends early, or uses another escape. */
  function Decoded(text: string): Option<string>
    decreases |text|
  {
    if text == "" then Some("")
    else if text[0] == '"' || text[0] == '\n' then None
    else if text[0] != '\\' then Before(text[0], Decoded(text[1..]))
    else if |text| == 1 then None
    else if IsOctal(text[1]) then DecodedOctal(text)
    else if SimpleEscape(text[1]).None? then None
    else Before(SimpleEscape(text[1]).value, Decoded(text[2..]))
  }

  function DecodedOctal(text: string): Option<string>
    requires |text| > 1 && IsOctal(text[1])
    decreases |text|, 0
  {
    var n := OctalRun(text[1..], 3);
    OctalRunDigits(text[1..], 3);
    var v := OctalValue(text[1..][..n]);
    if v >= 256 then None else Before(v as char, Decoded(text[1 + n..]))
  }

  lemma {:induction false} DecodeByte(c: char, rest: string)
    requires c as int < 256
    ensures Decoded(EscByte(c) + rest) == Before(c, Decoded(rest))
  {
    var text := EscByte(c) + rest;
    if c == '\\' || c == '"' || c == '\n' || c == '\r' || c == '\t' {
      assert text[2..] == rest;
    } else if c as int < 0x20 || c as int >= 0x7f {
      DecodeOctal(c, rest);
    } else {
      assert text[1..] == rest;
    }
  }

  /** A digit that follows cannot extend a three-digit escape. */
  lemma {:induction false} DecodeOctal(c: char, rest: string)
    requires c as int < 256
    ensures Decoded(Octal(c) + rest) == Before(c, Decoded(rest))
  {
    var text := Octal(c) + rest;
    var a, b, d := OctalDigit(c as int / 64), OctalDigit(c as int / 8 % 8), OctalDigit(c as int % 8);
    assert text[1..] == [a, b, d] + rest;
    ThreeDigits(a, b, d, rest);
    assert text[1..][..3] == [a, b, d];
    assert text[4..] == rest;
    assert c as int / 64 * 64 + c as int / 8 % 8 * 8 + c as int % 8 == c as int;
  }

  lemma {:induction false} ThreeDigits(a: char, b: char, d: char, rest: string)
    requires IsOctal(a) && IsOctal(b) && IsOctal(d)
    ensures OctalRun([a, b, d] + rest, 3) == 3
    ensures OctalValue([a, b, d]) == (a as int - '0' as int) * 64 + (b as int - '0' as int) * 8 + (d as int - '0' as int)
  {
    var text := [a, b, d] + rest;
    assert text[1..] == [b, d] + rest && text[1..][1..] == [d] + rest && text[1..][1..][1..] == rest;
    assert OctalRun(rest, 0) == 0;
    assert OctalRun([d] + rest, 1) == 1;
    assert OctalRun([b, d] + rest, 2) == 2;
    assert [a, b, d][..2] == [a, b] && [a, b][..1] == [a] && [a][..0] == "";
    assert OctalValue("") == 0;
    assert OctalValue([a]) == a as int - '0' as int;
    assert OctalValue([a, b]) == OctalValue([a]) * 8 + (b as int - '0' as int);
  }

  /** A compiler reads every escaped byte string back as it was. */
  lemma {:induction false} EscRoundTrip(s: string)
    requires Bytes(s)
    ensures Decoded(Escaped(s)) == Some(s)
  {
    hide EscByte, Decoded;
    if s == "" {
      DecodedEmpty();
    } else {
      DecodeByte(s[0], Escaped(s[1..]));
      EscRoundTrip(s[1..]);
      assert [s[0]] + s[1..] == s;
    }
  }

  lemma {:induction false} DecodedEmpty()
    ensures Decoded("") == Some("")
  {
  }

  /** An escaped string stays on one line of printable ASCII. */
  lemma {:induction false} EscPrintable(s: string)
    requires Bytes(s)
    ensures forall k :: 0 <= k < |Escaped(s)| ==> ' ' <= Escaped(s)[k] <= '~'
  {
    if s != "" {
      EscPrintable(s[1..]);
      BytePrintable(s[0]);
    }
  }

  lemma {:induction false} BytePrintable(c: char)
    requires c as int < 256
    ensures forall k :: 0 <= k < |EscByte(c)| ==> ' ' <= EscByte(c)[k] <= '~'
  {
  }
}
