/**
 The lowering decisions shared by the interpreter and both code generators:
 variable ids, URI selectors, matcher selection and slot keys.
 */
module Lowering {
  import opened Text
  import opened Ast

  // Stable immediate operands of the runtime ABI.
  const VAR_MAX: nat := 15

  const URI_WHOLE: nat := 0
  const URI_DISPLAY: nat := 1
  const URI_USER: nat := 2
  const URI_HOST: nat := 3
  const URI_PORT: nat := 4

  const MATCH_EXACT: nat := 0
  const MATCH_EXACT_CI: nat := 1
  const MATCH_REGEX: nat := 2
  const MATCH_IP: nat := 3
  const MATCH_IP_MASK: nat := 4
  const MATCH_IP_RANGE: nat := 5
  const MATCH_FQDN: nat := 6

  const VARIABLE_NAMES: seq<string> := [
    "", "LOCAL_IP", "REMOTE_IP", "LOCAL_PORT", "REMOTE_PORT", "TRUNK_GROUP", "REALM", "INTERFACE",
    "METHOD", "RURI_USER", "RURI_HOST", "TO_USER", "TO_HOST", "FROM_USER", "FROM_HOST"]

  /** Stable id of a built-in variable, matched without case; 0 when unknown. */
  function VariableId(name: string): nat {
    VariableIndex(seq(|name|, i requires 0 <= i < |name| => Upper(name[i])), 1)
  }

  function VariableIndex(upper: string, from: nat): nat
    decreases VAR_MAX - from
  {
    if from >= VAR_MAX then 0
    else if VARIABLE_NAMES[from] == upper then from
    else VariableIndex(upper, from + 1)
  }

  /** URI selector of an element kind; None for kinds that are not lowered. */
  function UriElement(kind: ElementType): Option<nat> {
    match kind
    case HeaderValue => Some(URI_WHOLE)
    case UriDisplay => Some(URI_DISPLAY)
    case UriUser => Some(URI_USER)
    case UriHost => Some(URI_HOST)
    case UriPort => Some(URI_PORT)
    case _ => None
  }

  predicate IsCaseInsensitive(c: ComparisonType) {
    c == CaseInsensitive || c == ReferCaseInsensitive
  }

  predicate IsPattern(c: ComparisonType) {
    c == PatternRule
  }

  /** A '/' selects the subnet matcher, else a '-' the range matcher, else equality. */
  function IpMatchType(pattern: string): nat {
    if '/' in pattern then MATCH_IP_MASK
    else if '-' in pattern then MATCH_IP_RANGE
    else MATCH_IP
  }

  /** Capturing groups opened in `re` from position `i` on. */
  function CountGroups(re: string, i: nat, inClass: bool): nat
    decreases |re| - i
  {
    if i >= |re| then 0
    else if re[i] == '\\' then CountGroups(re, i + 2, inClass)
    else if inClass then CountGroups(re, i + 1, re[i] != ']')
    else if re[i] == '[' then CountGroups(re, i + 1, true)
    else (if OpensGroup(re, i) then 1 else 0) + CountGroups(re, i + 1, false)
  }

  /** A '(' captures unless it starts `(?`; the named form `(?<name>` captures. */
  predicate OpensGroup(re: string, i: nat)
    requires i < |re|
  {
    re[i] == '(' &&
    (i + 1 < |re| && re[i + 1] == '?' ==>
       i + 3 < |re| && re[i + 2] == '<' && re[i + 3] != '=' && re[i + 3] != '!')
  }

  function CapturingGroups(re: string): nat {
    CountGroups(re, 0, false)
  }

  /** What a reader of a pattern is in before it takes the next character. */
  datatype Place = Outside | InClass | Escaped(inClass: bool)

  function Past(p: Place, c: char): Place {
    match p
    case Escaped(inClass) => if inClass then InClass else Outside
    case InClass => if c == '\\' then Escaped(true) else if c == ']' then Outside else InClass
    case Outside => if c == '\\' then Escaped(false) else if c == '[' then InClass else Outside
  }

  function PlaceAt(re: string, i: nat): Place
    requires i <= |re|
  {
    if i == 0 then Outside else Past(PlaceAt(re, i - 1), re[i - 1])
  }

  /** The positions from `i` on that open a capturing group: neither escaped nor in a class. */
  ghost function OpeningsFrom(re: string, i: nat): set<nat> {
    set k: nat | i <= k < |re| && PlaceAt(re, k).Outside? && OpensGroup(re, k)
  }

  lemma {:induction false} OpenedAt(re: string, i: nat)
    requires i < |re|
    ensures OpeningsFrom(re, i) ==
            OpeningsFrom(re, i + 1) + if PlaceAt(re, i).Outside? && OpensGroup(re, i) then {i} else {}
    ensures i !in OpeningsFrom(re, i + 1)
  {
    hide OpensGroup, PlaceAt;
  }

  /** The recursive count is the number of those positions. */
  lemma {:induction false} CountIsGroups(re: string, i: nat, inClass: bool)
    requires i <= |re| && PlaceAt(re, i) == if inClass then InClass else Outside
    ensures CountGroups(re, i, inClass) == |OpeningsFrom(re, i)|
    decreases |re| - i
  {
    hide OpensGroup, OpeningsFrom;
    if i == |re| {
      NoOpenings(re, i);
    } else {
      OpenedAt(re, i);
      if re[i] == '\\' {
        NoOpening(re, i);
        assert PlaceAt(re, i + 1) == Escaped(inClass);
        if i + 1 < |re| {
          OpenedAt(re, i + 1);
          CountIsGroups(re, i + 2, inClass);
        } else {
          NoOpenings(re, i + 1);
        }
      } else {
        if re[i] == '[' { NoOpening(re, i); }
        var after := if inClass then re[i] != ']' else re[i] == '[';
        CountIsGroups(re, i + 1, after);
      }
    }
  }

  lemma {:induction false} NoOpenings(re: string, i: nat)
    requires i >= |re|
    ensures OpeningsFrom(re, i) == {}
  {
    hide OpensGroup, PlaceAt;
  }

  lemma {:induction false} NoOpening(re: string, i: nat)
    requires i < |re| && re[i] != '('
    ensures !OpensGroup(re, i)
  {
  }

  method CountCapturingGroups(re: string) returns (n: nat)
    ensures n == CapturingGroups(re) == |OpeningsFrom(re, 0)|
  {
    CountIsGroups(re, 0, false);
    n := 0;
    var inClass := false;
    var i := 0;
    while i < |re|
      invariant n + CountGroups(re, i, inClass) == CapturingGroups(re)
      decreases |re| - i
    {
      var c := re[i];
      if c == '\\' {
        i := i + 1;
      } else if inClass {
        if c == ']' { inClass := false; }
      } else if c == '[' {
        inClass := true;
      } else if c == '(' {
        if i + 1 < |re| && re[i + 1] == '?' {
          if i + 2 < |re| && re[i + 2] == '<' && i + 3 < |re| && re[i + 3] != '=' && re[i + 3] != '!' {
            n := n + 1;
          }
        } else {
          n := n + 1;
        }
      }
      i := i + 1;
    }
  }

  /** Slot key of capture `group` of the store rule `rule`: group 0 keeps the bare name. */
  function CaptureSlotKey(rule: string, group: nat): string {
    if group == 0 then rule else rule + ".$" + Decimal(group)
  }

  /** Everything before the first '.' of a back-reference path. */
  function RefBaseName(path: string): string {
    path[..IndexOf(path, '.')]
  }

  /** Slot key a `$rule.$N` reference loads; an absent index means group 0. */
  function RefSlotKey(ref: ValueRef): string {
    CaptureSlotKey(RefBaseName(ref.name), CaptureNumber(ref))
  }

  function CaptureNumber(ref: ValueRef): nat {
    if ref.captureIndex < 0 then 0 else ref.captureIndex
  }

  /** Name under which a header-level store writes. */
  function StoreName(hr: HeaderRule, idx: nat): string {
    if hr.name == "" then "rule" + Decimal(idx) else hr.name
  }

  /** Name under which an element-level store writes. */
  function ElementStoreName(hr: HeaderRule, er: ElementRule): string {
    if er.name == "" then hr.name + ".el" else er.name
  }
}
