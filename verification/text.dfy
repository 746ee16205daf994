/**
 Byte-string helpers shared by the whole model: searching, trimming and
 ASCII case folding. Strings are sequences of characters standing for bytes.
 */
module Text {

  datatype Option<+T> = None | Some(value: T)

  /** Position of the first `c` in `s`, or `|s|` when there is none. */
  function IndexOf(s: string, c: char): (i: nat)
    ensures i <= |s|
    ensures i < |s| ==> s[i] == c
    ensures forall k :: 0 <= k < i ==> s[k] != c
  {
    if s == "" || s[0] == c then 0 else 1 + IndexOf(s[1..], c)
  }

  /** Position just past the last `c` in `s`, or 0 when there is none. */
  function AfterLast(s: string, c: char): (i: nat)
    ensures i <= |s|
    ensures i > 0 ==> s[i - 1] == c
    ensures forall k :: i <= k < |s| ==> s[k] != c
  {
    if s == "" || s[|s| - 1] == c then |s| else AfterLast(s[..|s| - 1], c)
  }

  /** Position of the first character of `s` that occurs in `chars`, or `|s|`. */
  function IndexOfAny(s: string, chars: string): (i: nat)
    ensures i <= |s|
    ensures i < |s| ==> s[i] in chars
    ensures forall k :: 0 <= k < i ==> s[k] !in chars
  {
    if s == "" || s[0] in chars then 0 else 1 + IndexOfAny(s[1..], chars)
  }

  /** The first occurrence is determined by a prefix that avoids `c`. */
  lemma {:induction false} FirstIs(s: string, c: char, i: nat)
    requires i <= |s| && (forall k :: 0 <= k < i ==> s[k] != c) && (i < |s| ==> s[i] == c)
    ensures IndexOf(s, c) == i
  {
  }

  predicate IsBlank(c: char) {
    c == ' ' || c == '\t'
  }

  /** Number of leading spaces and tabs. */
  function LeadLen(s: string): (n: nat)
    ensures n <= |s|
    ensures forall k :: 0 <= k < n ==> IsBlank(s[k])
    ensures n < |s| ==> !IsBlank(s[n])
  {
    if s == "" || !IsBlank(s[0]) then 0 else 1 + LeadLen(s[1..])
  }

  /** Length of `s` once trailing blanks (and, if `cr`, carriage returns) are dropped. */
  function KeepLen(s: string, cr: bool): (n: nat)
    ensures n <= |s|
    ensures forall k :: n <= k < |s| ==> IsBlank(s[k]) || (cr && s[k] == '\r')
    ensures n > 0 ==> !IsBlank(s[n - 1]) && !(cr && s[n - 1] == '\r')
  {
    if s == "" then 0
    else
      var c := s[|s| - 1];
      if IsBlank(c) || (cr && c == '\r') then KeepLen(s[..|s| - 1], cr) else |s|
  }

  /** Trimming: blanks at the front; blanks (and carriage returns if `cr`) at the back. */
  function Trim(s: string, cr: bool): string {
    var front := s[LeadLen(s)..];
    front[..KeepLen(front, cr)]
  }

  predicate Trimmed(s: string, cr: bool) {
    s == "" || (!IsBlank(s[0]) && !IsBlank(s[|s| - 1]) && !(cr && s[|s| - 1] == '\r'))
  }

  lemma {:induction false} TrimIsTrimmed(s: string, cr: bool)
    ensures Trimmed(Trim(s, cr), cr)
    ensures forall c :: c in Trim(s, cr) ==> c in s
  {
    var front := s[LeadLen(s)..];
    var t := front[..KeepLen(front, cr)];
    assert forall c :: c in t ==> c in front;
  }

  /** Trimming strips exactly the padding around a trimmed string. */
  lemma {:induction false} TrimPadded(lead: string, s: string, trail: string, cr: bool)
    requires Trimmed(s, cr)
    requires forall k :: 0 <= k < |lead| ==> IsBlank(lead[k])
    requires forall k :: 0 <= k < |trail| ==> IsBlank(trail[k]) || (cr && trail[k] == '\r')
    ensures Trim(lead + s + trail, cr) == s
  {
    hide LeadLen, KeepLen;
    var all := lead + s + trail;
    var n := LeadLen(all);
    assert forall k :: 0 <= k < |lead| ==> all[k] == lead[k];
    assert forall k :: 0 <= k < |trail| ==> all[|lead| + |s| + k] == trail[k];
    var front := all[n..];
    if s != "" {
      assert all[|lead|] == s[0];
      assert n == |lead|;
      assert front == s + trail;
      KeepFront(s, trail, cr);
    } else {
      assert n >= |lead|;
      assert forall k :: 0 <= k < |front| ==> front[k] == trail[n - |lead| + k];
      KeepIs(front, 0, cr);
    }
  }

  lemma {:induction false} KeepFront(s: string, trail: string, cr: bool)
    requires s != "" && Trimmed(s, cr)
    requires forall k :: 0 <= k < |trail| ==> IsBlank(trail[k]) || (cr && trail[k] == '\r')
    ensures KeepLen(s + trail, cr) == |s|
  {
    KeepIs(s + trail, |s|, cr);
  }

  lemma {:induction false} KeepIs(s: string, n: nat, cr: bool)
    requires n <= |s|
    requires forall k :: n <= k < |s| ==> IsBlank(s[k]) || (cr && s[k] == '\r')
    requires n > 0 ==> !IsBlank(s[n - 1]) && !(cr && s[n - 1] == '\r')
    ensures KeepLen(s, cr) == n
  {
  }

  function Lower(c: char): char {
    if 'A' <= c <= 'Z' then c - 'A' + 'a' else c
  }

  function Upper(c: char): char {
    if 'a' <= c <= 'z' then c - 'a' + 'A' else c
  }

  function LowerAll(s: string): (r: string)
    ensures |r| == |s|
  {
    seq(|s|, i requires 0 <= i < |s| => Lower(s[i]))
  }

  /** ASCII case-insensitive equality. */
  predicate IEquals(a: string, b: string) {
    |a| == |b| && forall k :: 0 <= k < |a| ==> Lower(a[k]) == Lower(b[k])
  }

  predicate IsDigit(c: char) {
    '0' <= c <= '9'
  }

  predicate IsAlpha(c: char) {
    'a' <= c <= 'z' || 'A' <= c <= 'Z'
  }

  function DigitOf(n: nat): char
    requires n < 10
  {
    '0' + n as char
  }

  /** Decimal rendering, as `std::to_string` prints an unsigned number. */
  function Decimal(n: nat): (s: string)
    ensures s != ""
    ensures forall c :: c in s ==> IsDigit(c)
  {
    if n < 10 then [DigitOf(n)] else Decimal(n / 10) + [DigitOf(n % 10)]
  }

  /** Value of a digit string, most significant digit first; other characters count zero. */
  function DecimalValue(s: string): nat {
    if s == "" then 0
    else 10 * DecimalValue(s[..|s| - 1]) + DigitValue(s[|s| - 1])
  }

  function DigitValue(c: char): (v: nat)
    ensures v <= 9
  {
    if IsDigit(c) then c as int - '0' as int else 0
  }

  /** Reading back a printed number gives the number. */
  lemma {:induction false} DecimalRoundTrip(n: nat)
    ensures DecimalValue(Decimal(n)) == n
  {
    var s := Decimal(n);
    if n >= 10 {
      DecimalRoundTrip(n / 10);
      assert s[..|s| - 1] == Decimal(n / 10);
    } else {
      assert s[..|s| - 1] == "";
      assert DecimalValue("") == 0;
    }
  }

  /** The fields of `s` between occurrences of `sep`; always at least one. */
  function Split(s: string, sep: char): (fields: seq<string>)
    ensures fields != []
    decreases |s|
  {
    var i := IndexOf(s, sep);
    if i == |s| then [s] else [s[..i]] + Split(s[i + 1..], sep)
  }

  predicate AllDigits(s: string) {
    forall k :: 0 <= k < |s| ==> IsDigit(s[k])
  }
}
