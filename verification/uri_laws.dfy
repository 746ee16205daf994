/**
 Get/set laws of the URI rewrite. `IsCut` says declaratively where a value is cut;
 `Parts` are the strings between the cuts, and `Compose` glues them back. Cutting
 and gluing are inverse exactly on canonical parts, and a rewrite updates one part.
 */
module UriLaws {
  import opened Text
  import opened Lowering
  import opened Uri

  predicate Lacks(s: string, lo: nat, hi: nat, c: char)
    requires lo <= hi <= |s|
  {
    forall k :: lo <= k < hi ==> s[k] != c
  }

  predicate IsDelimiter(c: char) {
    c == ';' || c == '?' || c == '>'
  }

  /** Where the brackets are: the first '<', then the first '>' after it. */
  predicate BracketCut(v: string, addr: nat, end: nat)
    requires addr <= end <= |v|
  {
    if addr > 0 then
      v[addr - 1] == '<' && Lacks(v, 0, addr - 1, '<') && Lacks(v, addr, end, '>') && (end < |v| ==> v[end] == '>')
    else end == |v| && Lacks(v, 0, |v|, '<')
  }

  predicate SchemeCut(v: string, addr: nat, rest: nat, end: nat)
    requires addr <= rest <= end <= |v|
  {
    if rest > addr then v[addr..rest - 1] in SCHEMES else !HasScheme(v[addr..end])
  }

  /** Where the first '@' is. */
  predicate UserCut(v: string, rest: nat, host: nat, end: nat)
    requires rest <= host <= end <= |v|
  {
    Lacks(v, rest, if host > rest then host - 1 else end, '@')
  }

  /** Where the first delimiter is. */
  predicate TailCut(v: string, host: nat, tail: nat, end: nat)
    requires host <= tail <= end <= |v|
  {
    (forall k :: host <= k < tail ==> !IsDelimiter(v[k])) && (tail < end ==> IsDelimiter(v[tail]))
  }

  /** First '<', first '>' after it, recognised scheme, first '@', first delimiter, last ':'. */
  ghost predicate IsCut(v: string, c: Cuts) {
    && c.Shape(v) && c.angled == (c.addr > 0)
    && BracketCut(v, c.addr, c.end)
    && SchemeCut(v, c.addr, c.rest, c.end)
    && UserCut(v, c.rest, c.host, c.end)
    && TailCut(v, c.host, c.tail, c.end)
    && Lacks(v, if c.hasPort then c.port else c.host, c.tail, ':')
  }

  lemma {:induction false} CutsOfIsCut(v: string)
    ensures IsCut(v, CutsOf(v))
  {
    var addr := AddrLo(v);
    var end := AddrHi(v, addr);
    AddrIsCut(v, addr, end);
    CutAddrIsCut(v, addr, end);
  }

  lemma {:induction false} CutAddrIsCut(v: string, addr: nat, end: nat)
    requires addr <= end <= |v| && BracketCut(v, addr, end)
    ensures IsCut(v, CutAddr(v, addr, end))
  {
    var rest := RestLo(v, addr, end);
    RestIsCut(v, addr, rest, end);
    RestHostIsCut(v, addr, rest, end, HostLo(v, rest, end));
  }

  lemma {:induction false} RestHostIsCut(v: string, addr: nat, rest: nat, end: nat, host: nat)
    requires addr <= rest <= end <= |v| && BracketCut(v, addr, end) && SchemeCut(v, addr, rest, end)
    requires (addr < rest ==> v[rest - 1] == ':') && host == HostLo(v, rest, end)
    ensures IsCut(v, CutHostPort(v, addr, rest, host, end))
  {
    hide TailLo, PortLo, HostLo, RestLo, TailCut, Lacks, BracketCut, SchemeCut, UserCut, CutHostPort;
    HostIsCut(v, rest, host, end);
    HostPortIsCut(v, addr, rest, host, end);
  }

  lemma {:induction false} AddrIsCut(v: string, addr: nat, end: nat)
    requires addr == AddrLo(v) && end == AddrHi(v, addr)
    ensures BracketCut(v, addr, end)
  {
    if addr > 0 {
      assert forall k :: addr <= k < |v| ==> v[k] == v[addr..][k - addr];
    }
  }

  lemma {:induction false} RestIsCut(v: string, addr: nat, rest: nat, end: nat)
    requires addr <= end <= |v| && rest == RestLo(v, addr, end)
    ensures SchemeCut(v, addr, rest, end)
  {
    var inner := v[addr..end];
    if HasScheme(inner) {
      assert v[addr..rest - 1] == inner[..IndexOf(inner, ':')];
    }
  }

  lemma {:induction false} HostIsCut(v: string, rest: nat, host: nat, end: nat)
    requires rest <= end <= |v| && host == HostLo(v, rest, end)
    ensures UserCut(v, rest, host, end)
  {
    assert forall k :: rest <= k < end ==> v[k] == v[rest..end][k - rest];
  }

  lemma {:induction false} TailIsCut(v: string, host: nat, end: nat)
    requires host <= end <= |v|
    ensures TailCut(v, host, TailLo(v, host, end), end)
  {
    hide IndexOfAny;
    var whole := v[host..end];
    assert forall k :: host <= k < end ==> v[k] == whole[k - host];
  }

  lemma {:induction false} PortIsCut(v: string, host: nat, tail: nat)
    requires host <= tail <= |v|
    ensures Lacks(v, PortLo(v, host, tail), tail, ':')
  {
    hide AfterLast;
    var hp := v[host..tail];
    assert forall k :: host <= k < tail ==> v[k] == hp[k - host];
  }

  lemma {:induction false} HostPortIsCut(v: string, addr: nat, rest: nat, host: nat, end: nat)
    requires addr <= rest <= host <= end <= |v|
    requires (addr < rest ==> v[rest - 1] == ':') && (rest < host ==> v[host - 1] == '@')
    ensures var c := CutHostPort(v, addr, rest, host, end);
            && c.addr == addr && c.rest == rest && c.host == host && c.end == end && c.angled == (addr > 0)
            && TailCut(v, host, c.tail, end) && Lacks(v, if c.hasPort then c.port else host, c.tail, ':')
  {
    hide TailLo, PortLo, TailCut, Lacks;
    TailIsCut(v, host, end);
    PortIsCut(v, host, TailLo(v, host, end));
  }

  /** A value has one cut only. */
  lemma {:induction false} CutUnique(v: string, c: Cuts, d: Cuts)
    requires IsCut(v, c) && IsCut(v, d)
    ensures c == d
  {
    assert c.addr == d.addr && c.end == d.end && c.angled == d.angled;
    SchemeUnique(v, c, d);
    assert c.host == d.host;
    assert c.tail == d.tail;
  }

  lemma {:induction false} SchemeUnique(v: string, c: Cuts, d: Cuts)
    requires IsCut(v, c) && IsCut(v, d) && c.addr == d.addr && c.end == d.end
    ensures c.rest == d.rest && c.hasScheme == d.hasScheme
  {
    if c.hasScheme {
      SchemeColon(v, c);
    }
    if d.hasScheme {
      SchemeColon(v, d);
    }
  }

  lemma {:induction false} SchemeColon(v: string, c: Cuts)
    requires IsCut(v, c) && c.hasScheme
    ensures HasScheme(v[c.addr..c.end]) && IndexOf(v[c.addr..c.end], ':') == c.rest - 1 - c.addr
  {
    SchemeColonIn(v[c.addr..c.end], v[c.addr..c.rest - 1]);
  }

  lemma {:induction false} SchemeColonIn(inner: string, scheme: string)
    requires scheme in SCHEMES && scheme + ":" <= inner
    ensures HasScheme(inner) && IndexOf(inner, ':') == |scheme|
  {
    SchemeWordsArePlain(scheme);
    assert (scheme + ":")[|scheme|] == ':';
    assert forall k :: 0 <= k <= |scheme| ==> inner[k] == (scheme + ":")[k];
    FirstIs(inner, ':', |scheme|);
    assert inner[..|scheme|] == scheme;
  }

  /** A value cut at its offsets. `pre` ends with '<' or is empty. */
  datatype Parts = Parts(
    pre: string, scheme: Option<string>, user: Option<string>, host: string,
    port: Option<string>, tail: string, post: string)
  {
    function SchemeText(): string {
      if scheme.Some? then scheme.value + ":" else ""
    }

    function UserText(): string {
      if user.Some? then user.value + "@" else ""
    }

    function PortText(): string {
      if port.Some? then ":" + port.value else ""
    }

    function Inner(): string {
      SchemeText() + UserText() + host + PortText() + tail
    }

    function Compose(): string {
      pre + SchemeText() + UserText() + host + PortText() + tail + post
    }
  }

  function PartsAt(v: string, c: Cuts): Parts
    requires c.Shape(v)
  {
    Parts(
      v[..c.addr],
      if c.hasScheme then Some(v[c.addr..c.rest - 1]) else None,
      if c.hasUser then Some(v[c.rest..c.host - 1]) else None,
      v[c.host..c.hostHi],
      if c.hasPort then Some(v[c.port..c.tail]) else None,
      v[c.tail..c.end],
      v[c.end..])
  }

  function PartsOf(v: string): Parts {
    PartsAt(v, CutsOf(v))
  }

  lemma {:induction false} Adjacent(v: string, i: nat, j: nat, k: nat)
    requires i <= j <= k <= |v|
    ensures v[i..j] + v[j..k] == v[i..k]
  {
  }

  lemma {:induction false} AdjacentFront(v: string, i: nat, j: nat)
    requires i <= j <= |v|
    ensures v[..i] + v[i..j] == v[..j]
  {
  }

  lemma {:induction false} AdjacentBack(v: string, i: nat, j: nat)
    requires i <= j <= |v|
    ensures v[i..j] + v[j..] == v[i..]
  {
  }

  lemma {:induction false} EndsWith(v: string, i: nat, j: nat, sep: string)
    requires i < j <= |v| && sep == [v[j - 1]]
    ensures v[i..j - 1] + sep == v[i..j]
  {
  }

  lemma {:induction false} StartsWith(v: string, i: nat, j: nat, sep: string)
    requires i < j <= |v| && sep == [v[i]]
    ensures sep + v[i + 1..j] == v[i..j]
  {
  }

  /** Each separator belongs to the stretch it ends or starts. */
  lemma {:induction false} Stretches(v: string, c: Cuts)
    requires c.Shape(v)
    ensures PartsAt(v, c).SchemeText() == v[c.addr..c.rest]
    ensures PartsAt(v, c).UserText() == v[c.rest..c.host]
    ensures PartsAt(v, c).PortText() == v[c.hostHi..c.tail]
  {
    hide PartsAt;
    SchemeStretch(v, c);
    UserStretch(v, c);
    PortStretch(v, c);
  }

  lemma {:induction false} SchemeStretch(v: string, c: Cuts)
    requires c.Shape(v)
    ensures PartsAt(v, c).SchemeText() == v[c.addr..c.rest]
  {
    if c.hasScheme { EndsWith(v, c.addr, c.rest, ":"); }
  }

  lemma {:induction false} UserStretch(v: string, c: Cuts)
    requires c.Shape(v)
    ensures PartsAt(v, c).UserText() == v[c.rest..c.host]
  {
    if c.hasUser { EndsWith(v, c.rest, c.host, "@"); }
  }

  lemma {:induction false} PortStretch(v: string, c: Cuts)
    requires c.Shape(v)
    ensures PartsAt(v, c).PortText() == v[c.hostHi..c.tail]
  {
    if c.hasPort { StartsWith(v, c.hostHi, c.tail, ":"); }
  }

  /** Cutting loses nothing. */
  lemma {:induction false} Glue(v: string, c: Cuts)
    requires c.Shape(v)
    ensures PartsAt(v, c).Inner() == v[c.addr..c.end]
    ensures PartsAt(v, c).Compose() == v
  {
    Stretches(v, c);
    AdjacentFront(v, c.addr, c.rest);
    AdjacentFront(v, c.rest, c.host);
    AdjacentFront(v, c.host, c.hostHi);
    AdjacentFront(v, c.hostHi, c.tail);
    AdjacentFront(v, c.tail, c.end);
    assert v == v[..c.end] + v[c.end..];
    InnerSlice(v, PartsAt(v, c), c);
  }

  /** Pieces that fill the stretches of the addr-spec fill the whole of it. */
  lemma {:induction false} InnerSlice(v: string, p: Parts, c: Cuts)
    requires c.addr <= c.rest <= c.host <= c.hostHi <= c.tail <= c.end <= |v|
    requires p.SchemeText() == v[c.addr..c.rest] && p.UserText() == v[c.rest..c.host]
    requires p.host == v[c.host..c.hostHi] && p.PortText() == v[c.hostHi..c.tail] && p.tail == v[c.tail..c.end]
    ensures p.Inner() == v[c.addr..c.end]
  {
    Adjacent(v, c.addr, c.rest, c.host);
    Adjacent(v, c.addr, c.host, c.hostHi);
    Adjacent(v, c.addr, c.hostHi, c.tail);
    Adjacent(v, c.addr, c.tail, c.end);
  }

  /** Where the cuts of `p.Compose()` must be if it is to be cut into `p` again. */
  function CutsFor(p: Parts): Cuts {
    CutsAfter(p, |p.pre| + |p.SchemeText()|, |p.pre| + |p.SchemeText()| + |p.UserText()|)
  }

  function CutsAfter(p: Parts, rest: nat, host: nat): Cuts {
    var hostHi := host + |p.host|;
    Cuts(p.pre != "", p.scheme.Some?, p.user.Some?, p.port.Some?,
         |p.pre|, rest, host, hostHi, hostHi + (if p.port.Some? then 1 else 0),
         hostHi + |p.PortText()|, hostHi + |p.PortText()| + |p.tail|)
  }

  predicate NoDelimiter(s: string) {
    forall k :: 0 <= k < |s| ==> !IsDelimiter(s[k])
  }

  predicate Avoids(s: string, c: char) {
    Lacks(s, 0, |s|, c)
  }

  /** Whether no piece of the addr-spec contains `c` (a structural `:` or `@` aside). */
  predicate InnerAvoids(p: Parts, c: char) {
    (p.scheme.Some? ==> Avoids(p.scheme.value, c)) && (p.user.Some? ==> Avoids(p.user.value, c)) &&
    Avoids(p.host, c) && (p.port.Some? ==> Avoids(p.port.value, c)) && Avoids(p.tail, c)
  }

  /** `pre` holds the first '<' last, and `post` starts at the first '>' after it. */
  predicate BracketsOk(p: Parts) {
    if p.pre != "" then
      p.pre[|p.pre| - 1] == '<' && Lacks(p.pre, 0, |p.pre| - 1, '<') &&
      InnerAvoids(p, '>') && (p.post != "" ==> p.post[0] == '>')
    else InnerAvoids(p, '<') && p.post == ""
  }

  predicate SchemeOk(p: Parts) {
    if p.scheme.Some? then p.scheme.value in SCHEMES else !HasScheme(p.Inner())
  }

  predicate UserOk(p: Parts) {
    if p.user.Some? then Avoids(p.user.value, '@')
    else Avoids(p.host, '@') && (p.port.Some? ==> Avoids(p.port.value, '@')) && Avoids(p.tail, '@')
  }

  predicate HostPortOk(p: Parts) {
    && NoDelimiter(p.host)
    && (p.tail != "" ==> IsDelimiter(p.tail[0]))
    && (if p.port.Some? then NoDelimiter(p.port.value) && Avoids(p.port.value, ':') else Avoids(p.host, ':'))
  }

  /** Parts that survive gluing and cutting. */
  predicate Canonical(p: Parts) {
    BracketsOk(p) && SchemeOk(p) && UserOk(p) && HostPortOk(p)
  }

  /** Gluing puts every piece on its stretch. */
  ghost predicate OnStretches(v: string, p: Parts, c: Cuts) {
    && c.addr <= c.rest <= c.host <= c.hostHi <= c.tail <= c.end <= |v|
    && v[..c.addr] == p.pre && v[c.addr..c.rest] == p.SchemeText() && v[c.rest..c.host] == p.UserText()
    && v[c.host..c.hostHi] == p.host && v[c.hostHi..c.tail] == p.PortText()
    && v[c.tail..c.end] == p.tail && v[c.end..] == p.post
  }

  lemma {:induction false} ComposeStretches(p: Parts)
    ensures OnStretches(p.Compose(), p, CutsFor(p))
  {
    SevenPieces(p.pre, p.SchemeText(), p.UserText(), p.host, p.PortText(), p.tail, p.post);
  }

  lemma {:induction false} SevenPieces(s0: string, s1: string, s2: string, s3: string, s4: string, s5: string, s6: string)
    ensures var v := s0 + s1 + s2 + s3 + s4 + s5 + s6;
            var n1 := |s0| + |s1|; var n2 := n1 + |s2|; var n3 := n2 + |s3|; var n4 := n3 + |s4|; var n5 := n4 + |s5|;
            && v[..|s0|] == s0 && v[|s0|..n1] == s1 && v[n1..n2] == s2 && v[n2..n3] == s3
            && v[n3..n4] == s4 && v[n4..n5] == s5 && v[n5..] == s6
  {
    var a1 := s0 + s1;
    var a2 := a1 + s2;
    var a3 := a2 + s3;
    var a4 := a3 + s4;
    var a5 := a4 + s5;
    var v := a5 + s6;
    PieceAt(s0, s1, v);
    PieceAt(a1, s2, v);
    PieceAt(a2, s3, v);
    PieceAt(a3, s4, v);
    PieceAt(a4, s5, v);
    PieceAt(a5, s6, v);
  }

  lemma {:induction false} PieceAt(before: string, piece: string, whole: string)
    requires before + piece <= whole
    ensures whole[..|before|] == before
    ensures whole[|before|..|before| + |piece|] == piece
  {
    assert (before + piece)[|before|..] == piece;
  }

  /** What a piece avoids, its stretch of the value avoids. */
  lemma {:induction false} LacksPiece(v: string, lo: nat, hi: nat, c: char)
    requires lo <= hi <= |v|
    ensures Lacks(v, lo, hi, c) <==> Avoids(v[lo..hi], c)
  {
    assert forall k :: lo <= k < hi ==> v[k] == v[lo..hi][k - lo];
  }

  lemma {:induction false} NoDelimiterPiece(v: string, lo: nat, hi: nat)
    requires lo <= hi <= |v|
    ensures (forall k :: lo <= k < hi ==> !IsDelimiter(v[k])) <==> NoDelimiter(v[lo..hi])
  {
    assert forall k :: lo <= k < hi ==> v[k] == v[lo..hi][k - lo];
  }

  lemma {:induction false} StretchesHaveShape(v: string, p: Parts, c: Cuts)
    requires OnStretches(v, p, c) && c == CutsFor(p) && (p.pre == "" ==> p.post == "")
    ensures c.Shape(v) && PartsAt(v, c) == p
  {
    hide CutsFor, CutsAfter, Parts.SchemeText, Parts.UserText, Parts.PortText;
    SameOffsets(p);
    SchemeOnStretch(v, p, c.addr, c.rest);
    UserOnStretch(v, p, c.rest, c.host);
    PortOnStretch(v, p, c.hostHi, c.port, c.tail);
  }

  /** The offsets are as far apart as the pieces are long. */
  lemma {:induction false} SameOffsets(p: Parts)
    ensures var c := CutsFor(p);
      && c.angled == (p.pre != "") && c.hasScheme == p.scheme.Some? && c.hasUser == p.user.Some? && c.hasPort == p.port.Some?
      && c.addr == |p.pre| && (p.scheme.None? ==> c.rest == c.addr) && (p.user.None? ==> c.host == c.rest)
      && c.port == c.hostHi + (if p.port.Some? then 1 else 0)
      && (p.port.None? ==> c.tail == c.hostHi)
  {
  }

  lemma {:induction false} SchemeOnStretch(v: string, p: Parts, i: nat, j: nat)
    requires i <= j <= |v| && v[i..j] == p.SchemeText()
    ensures p.scheme.Some? ==> i < j && v[j - 1] == ':' && v[i..j - 1] == p.scheme.value
  {
    if p.scheme.Some? {
      TakeSep(v, i, j, p.scheme.value, ":");
    }
  }

  lemma {:induction false} UserOnStretch(v: string, p: Parts, i: nat, j: nat)
    requires i <= j <= |v| && v[i..j] == p.UserText()
    ensures p.user.Some? ==> i < j && v[j - 1] == '@' && v[i..j - 1] == p.user.value
  {
    if p.user.Some? {
      TakeSep(v, i, j, p.user.value, "@");
    }
  }

  lemma {:induction false} PortOnStretch(v: string, p: Parts, i: nat, port: nat, j: nat)
    requires i <= j <= |v| && v[i..j] == p.PortText() && port == i + (if p.port.Some? then 1 else 0)
    ensures p.port.Some? ==> i < port <= j && v[i] == ':' && v[port..j] == p.port.value
  {
    if p.port.Some? {
      assert v[i..j][0] == ':';
      assert v[port..j] == v[i..j][1..] == p.port.value;
    }
  }

  lemma {:induction false} TakeSep(v: string, i: nat, j: nat, text: string, sep: string)
    requires i <= j <= |v| && |sep| == 1 && v[i..j] == text + sep
    ensures i < j && v[j - 1] == sep[0] && v[i..j - 1] == text
  {
    assert v[i..j][..|text|] == text;
    assert v[i..j][|text|] == sep[0];
  }

  lemma {:induction false} InnerLacks(v: string, c: Cuts, ch: char)
    requires c.Shape(v) && ch != ':' && ch != '@'
    ensures Lacks(v, c.addr, c.end, ch) <==> InnerAvoids(PartsAt(v, c), ch)
  {
    LacksPiece(v, c.addr, if c.hasScheme then c.rest - 1 else c.addr, ch);
    LacksPiece(v, c.rest, if c.hasUser then c.host - 1 else c.rest, ch);
    LacksPiece(v, c.host, c.hostHi, ch);
    LacksPiece(v, c.port, c.tail, ch);
    LacksPiece(v, c.tail, c.end, ch);
  }

  lemma {:induction false} UserCutIff(v: string, c: Cuts)
    requires c.Shape(v)
    ensures UserCut(v, c.rest, c.host, c.end) <==> UserOk(PartsAt(v, c))
  {
    LacksPiece(v, c.rest, if c.hasUser then c.host - 1 else c.rest, '@');
    LacksPiece(v, c.host, c.hostHi, '@');
    LacksPiece(v, c.port, c.tail, '@');
    LacksPiece(v, c.tail, c.end, '@');
  }

  lemma {:induction false} HostPortCutIff(v: string, c: Cuts)
    requires c.Shape(v)
    ensures TailCut(v, c.host, c.tail, c.end) && Lacks(v, if c.hasPort then c.port else c.host, c.tail, ':')
       <==> HostPortOk(PartsAt(v, c))
  {
    NoDelimiterPiece(v, c.host, c.hostHi);
    NoDelimiterPiece(v, c.port, c.tail);
    LacksPiece(v, if c.hasPort then c.port else c.host, c.tail, ':');
  }

  lemma {:induction false} BracketCutIff(v: string, c: Cuts)
    requires c.Shape(v)
    ensures BracketCut(v, c.addr, c.end) <==> BracketsOk(PartsAt(v, c))
  {
    InnerLacks(v, c, '>');
    InnerLacks(v, c, '<');
  }

  /** Canonical parts are exactly the parts of a cut. */
  lemma {:induction false} CutIffCanonical(v: string, c: Cuts)
    requires c.Shape(v) && c.angled == (c.addr > 0)
    ensures IsCut(v, c) <==> Canonical(PartsAt(v, c))
  {
    BracketCutIff(v, c);
    UserCutIff(v, c);
    HostPortCutIff(v, c);
    Stretches(v, c);
    InnerSlice(v, PartsAt(v, c), c);
  }

  lemma {:induction false} PartsAreCanonical(value: string)
    ensures Canonical(PartsOf(value)) && PartsOf(value).Compose() == value
  {
    CutsOfIsCut(value);
    CutIffCanonical(value, CutsOf(value));
    Glue(value, CutsOf(value));
  }

  /** Gluing and cutting again gives the parts back, if and only if they are canonical. */
  lemma {:induction false} PartsCompose(p: Parts)
    ensures PartsOf(p.Compose()) == p <==> Canonical(p)
  {
    var v := p.Compose();
    if Canonical(p) {
      ComposeStretches(p);
      StretchesHaveShape(v, p, CutsFor(p));
      CutIffCanonical(v, CutsFor(p));
      CutsOfIsCut(v);
      CutUnique(v, CutsOf(v), CutsFor(p));
    }
    PartsAreCanonical(v);
  }

  const REWRITABLE: set<nat> := {URI_USER, URI_HOST, URI_PORT}

  /** The parts after a rewrite of user, host or port. */
  function Update(p: Parts, element: nat, text: string): Parts
    requires element in REWRITABLE
  {
    if element == URI_USER then p.(user := Some(text))
    else if element == URI_HOST then p.(host := text)
    else p.(port := Some(text))
  }

  /** The text from each cut on, as a concatenation of the pieces to its right. */
  lemma {:induction false} Suffixes(v: string, c: Cuts)
    requires c.Shape(v)
    ensures var p := PartsAt(v, c);
            && v[c.tail..] == p.tail + p.post
            && v[c.hostHi..] == p.PortText() + (p.tail + p.post)
            && v[c.host..] == p.host + (p.PortText() + (p.tail + p.post))
  {
    Stretches(v, c);
    AdjacentBack(v, c.tail, c.end);
    AdjacentBack(v, c.hostHi, c.tail);
    AdjacentBack(v, c.host, c.hostHi);
  }

  lemma {:induction false} Prefixes(v: string, c: Cuts)
    requires c.Shape(v)
    ensures var p := PartsAt(v, c);
            && v[..c.rest] == p.pre + p.SchemeText()
            && v[..c.host] == p.pre + p.SchemeText() + p.UserText()
            && v[..c.hostHi] == p.pre + p.SchemeText() + p.UserText() + p.host
  {
    Stretches(v, c);
    AdjacentFront(v, c.addr, c.rest);
    AdjacentFront(v, c.rest, c.host);
    AdjacentFront(v, c.host, c.hostHi);
  }

  lemma {:induction false} Regroup(a: string, b: string, c: string, d: string)
    ensures a + (b + (c + d)) == a + b + c + d
    ensures a + (b + c) == a + b + c
  {
  }

  /** The splice is an update of one part, whether the component was there or is inserted. */
  lemma {:induction false} SpliceIsUpdate(v: string, c: Cuts, element: nat, text: string)
    requires c.Shape(v) && element in REWRITABLE
    ensures Spliced(v, SpliceAt(v, c, element), text) == Update(PartsAt(v, c), element, text).Compose()
  {
    if element == URI_USER {
      SpliceUser(v, c, text);
    } else if element == URI_HOST {
      SpliceHost(v, c, text);
    } else {
      SplicePort(v, c, text);
    }
  }

  lemma {:induction false} SpliceUser(v: string, c: Cuts, text: string)
    requires c.Shape(v)
    ensures Spliced(v, UserSplice(c), text) == PartsAt(v, c).(user := Some(text)).Compose()
  {
    hide Spliced, UserSplice;
    var p := PartsAt(v, c);
    Prefixes(v, c);
    Suffixes(v, c);
    UserSpliced(v, c, text);
    GluePieces(v[..c.rest] + (text + "@"), p.host, p.PortText(), p.tail, p.post);
  }

  lemma {:induction false} UserSpliced(v: string, c: Cuts, text: string)
    requires c.Shape(v)
    ensures Spliced(v, UserSplice(c), text) == v[..c.rest] + (text + "@") + v[c.host..]
  {
    if c.hasUser {
      AdjacentBack(v, c.host - 1, c.host);
      assert v[c.host - 1..c.host] == "@";
    }
    UserForms(v[..c.rest], text, v[c.host..]);
  }

  lemma {:induction false} UserForms(a: string, text: string, r: string)
    ensures a + "" + text + "" + ("@" + r) == a + (text + "@") + r
    ensures a + "" + text + "@" + r == a + (text + "@") + r
  {
  }

  lemma {:induction false} PortForms(a: string, text: string, r: string)
    ensures (a + ":") + "" + text + "" + r == a + (":" + text) + r
    ensures a + ":" + text + "" + r == a + (":" + text) + r
  {
  }

  lemma {:induction false} GluePieces(a: string, host: string, port: string, tail: string, post: string)
    ensures a + (host + (port + (tail + post))) == a + host + port + tail + post
  {
    Regroup(a + host, port, tail, post);
    Regroup(a, host, port, tail + post);
  }

  lemma {:induction false} SpliceHost(v: string, c: Cuts, text: string)
    requires c.Shape(v)
    ensures Spliced(v, Splice(c.host, c.hostHi, "", ""), text) == PartsAt(v, c).(host := text).Compose()
  {
    var p := PartsAt(v, c);
    Prefixes(v, c);
    Suffixes(v, c);
    HostForms(v[..c.host], text, p.PortText(), p.tail, p.post);
  }

  lemma {:induction false} HostForms(a: string, text: string, port: string, tail: string, post: string)
    ensures a + "" + text + "" + (port + (tail + post)) == a + text + port + tail + post
  {
    Regroup(a + text, port, tail, post);
  }

  lemma {:induction false} SplicePort(v: string, c: Cuts, text: string)
    requires c.Shape(v)
    ensures Spliced(v, PortSplice(c), text) == PartsAt(v, c).(port := Some(text)).Compose()
  {
    var p := PartsAt(v, c);
    Prefixes(v, c);
    Suffixes(v, c);
    if c.hasPort {
      AdjacentFront(v, c.hostHi, c.port);
      assert v[c.hostHi..c.port] == ":";
    }
    PortForms(v[..c.hostHi], text, v[c.tail..]);
    Regroup(v[..c.hostHi] + (":" + text), p.tail, p.post, "");
  }

  /** Texts that cannot be mistaken for URI structure where they are written. */
  predicate SafeText(p: Parts, element: nat, text: string) {
    && Avoids(text, if p.pre != "" then '>' else '<')
    && (element == URI_USER ==> Avoids(text, '@'))
    && (element != URI_USER ==> NoDelimiter(text) && (p.user.None? ==> Avoids(text, '@')))
    && (element == URI_PORT || (element == URI_HOST && p.port.None?) ==> Avoids(text, ':'))
  }

  /**
   Where there is no scheme, the rewrites after which the address starts with one: a user
   text that does, a host text that does once the `:` of the port follows it, and a port
   inserted after a host spelled like a scheme.
   */
  predicate SpellsScheme(p: Parts, element: nat, text: string) {
    if element == URI_USER then HasScheme(text)
    else if element == URI_HOST then p.user.None? && p.port.Some? && HasScheme(text + ":")
    else p.user.None? && p.port.None? && p.host in SCHEMES
  }

  predicate KeepsScheme(p: Parts, element: nat, text: string) {
    p.scheme.None? ==> !SpellsScheme(p, element, text)
  }

  /** What a scheme word cannot reach across. */
  predicate IsStop(c: char) {
    c == ':' || c == '@' || IsDelimiter(c)
  }

  lemma {:induction false} SchemeBeforeStop(a: string, stop: string, b: string)
    requires |stop| == 1 && IsStop(stop[0])
    ensures HasScheme(a + stop + b) <==> HasScheme(a + stop)
  {
    var s, t := a + stop + b, a + stop;
    var i := IndexOf(s, ':');
    assert forall k :: 0 <= k <= |a| ==> s[k] == t[k];
    if i <= |a| {
      FirstIs(t, ':', i);
      assert s[..i] == t[..i];
    } else {
      assert s[..i][|a|] == stop[0];
      FirstIs(t, ':', |t|);
      assert !HasScheme(s) by {
        if HasScheme(s) { SchemeWordsArePlain(s[..i]); }
      }
    }
  }

  lemma {:induction false} SchemeBeforeMark(a: string, stop: string)
    requires |stop| == 1 && IsStop(stop[0]) && stop[0] != ':'
    ensures HasScheme(a + stop) <==> HasScheme(a)
  {
    var t, i := a + stop, IndexOf(a, ':');
    assert forall k :: 0 <= k < |a| ==> t[k] == a[k];
    FirstIs(t, ':', if i < |a| then i else |t|);
    assert i < |a| ==> t[..i] == a[..i];
  }

  lemma {:induction false} SchemeBeforeColon(a: string)
    requires Avoids(a, ':')
    ensures HasScheme(a + ":") <==> a in SCHEMES
    ensures !HasScheme(a)
  {
    FirstIs(a, ':', |a|);
    FirstIs(a + ":", ':', |a|);
    assert (a + ":")[..|a|] == a;
  }

  /** Without a scheme, the first piece that ends in a separator decides whether the address spells one. */
  lemma {:induction false} SchemeOfInner(p: Parts)
    requires p.scheme.None? && (p.tail != "" ==> IsDelimiter(p.tail[0])) && (p.port.None? ==> Avoids(p.host, ':'))
    ensures
      HasScheme(p.Inner()) <==>
      if p.user.Some? then HasScheme(p.user.value) else p.port.Some? && HasScheme(p.host + ":")
  {
    hide HasScheme;
    if p.user.Some? {
      SchemeBeforeStop(p.user.value, "@", p.host + p.PortText() + p.tail);
      SchemeBeforeMark(p.user.value, "@");
      UserFirst(p.user.value, p.host, p.PortText(), p.tail);
    } else if p.port.Some? {
      SchemeBeforeStop(p.host, ":", p.port.value + p.tail);
      HostFirst(p.host, p.port.value, p.tail);
    } else {
      HostOnly(p.host, p.tail);
    }
  }

  lemma {:induction false} UserFirst(user: string, host: string, port: string, tail: string)
    ensures "" + (user + "@") + host + port + tail == user + "@" + (host + port + tail)
  {
  }

  lemma {:induction false} HostFirst(host: string, port: string, tail: string)
    ensures "" + "" + host + (":" + port) + tail == host + ":" + (port + tail)
  {
  }

  lemma {:induction false} HostOnly(host: string, tail: string)
    requires Avoids(host, ':') && (tail != "" ==> IsDelimiter(tail[0]))
    ensures !HasScheme("" + "" + host + "" + tail)
  {
    SchemeBeforeColon(host);
    if tail == "" {
      assert "" + "" + host + "" + tail == host;
    } else {
      SchemeBeforeStop(host, tail[..1], tail[1..]);
      SchemeBeforeMark(host, tail[..1]);
      assert "" + "" + host + "" + tail == host + tail[..1] + tail[1..];
    }
  }

  /** The closed form is what the recogniser says of the rewritten address. */
  lemma {:induction false} UpdateSpellsScheme(p: Parts, element: nat, text: string)
    requires Canonical(p) && p.scheme.None? && element in REWRITABLE && SafeText(p, element, text)
    ensures HasScheme(Update(p, element, text).Inner()) <==> SpellsScheme(p, element, text)
  {
    hide HasScheme;
    SchemeOfInner(p);
    SchemeOfInner(Update(p, element, text));
    if element == URI_PORT && p.user.None? && p.port.None? {
      SchemeBeforeColon(p.host);
    }
  }

  lemma {:induction false} UpdateCanonical(p: Parts, element: nat, text: string)
    requires Canonical(p) && element in REWRITABLE
    ensures Canonical(Update(p, element, text)) <==> SafeText(p, element, text) && KeepsScheme(p, element, text)
  {
    hide HasScheme, SpellsScheme;
    if p.scheme.None? && SafeText(p, element, text) {
      UpdateSpellsScheme(p, element, text);
    }
  }

  /**
   Set-then-get with frame, exactly: writing `text` over user, host or port changes that
   part to `text` and no other part, if and only if `text` is safe there.
   */
  lemma {:induction false} SetGet(value: string, element: nat, text: string)
    requires element in REWRITABLE
    ensures PartsOf(Rebuild(value, element, text)) == Update(PartsOf(value), element, text)
       <==> SafeText(PartsOf(value), element, text) && KeepsScheme(PartsOf(value), element, text)
  {
    SpliceIsUpdate(value, CutsOf(value), element, text);
    PartsCompose(Update(PartsOf(value), element, text));
    PartsAreCanonical(value);
    UpdateCanonical(PartsOf(value), element, text);
  }

  /** Free of every structural character: safe in any value with a scheme. */
  predicate PlainText(text: string) {
    forall k :: 0 <= k < |text| ==> text[k] !in "@:;?<>"
  }

  /** What a reader sees: the component texts, the scheme and the tail. */
  datatype Reading = Reading(
    scheme: string, display: string, user: string, host: string, port: string, tail: string)

  function ReadAt(v: string, c: Cuts): Reading
    requires c.Shape(v)
  {
    Reading(
      if c.hasScheme then v[c.addr..c.rest - 1] else "",
      ComponentAt(v, c, URI_DISPLAY), ComponentAt(v, c, URI_USER), ComponentAt(v, c, URI_HOST),
      ComponentAt(v, c, URI_PORT), v[c.tail..c.end])
  }

  function Read(value: string): Reading {
    ReadAt(value, CutsOf(value))
  }

  function UpdateReading(r: Reading, element: nat, text: string): Reading
    requires element in REWRITABLE
  {
    if element == URI_USER then r.(user := text)
    else if element == URI_HOST then r.(host := text)
    else r.(port := text)
  }

  function OrEmpty(s: Option<string>): string {
    if s.Some? then s.value else ""
  }

  function ReadingOf(p: Parts): Reading {
    Reading(
      OrEmpty(p.scheme), if p.pre == "" then "" else DisplayText(p.pre[..|p.pre| - 1]),
      OrEmpty(p.user), p.host, OrEmpty(p.port), p.tail)
  }

  lemma {:induction false} ReadFromParts(v: string, c: Cuts)
    requires c.Shape(v) && c.angled == (c.addr > 0)
    ensures ReadAt(v, c) == ReadingOf(PartsAt(v, c))
  {
    hide DisplayText;
    assert c.angled ==> v[..c.addr][..c.addr - 1] == v[..c.addr - 1];
  }

  lemma {:induction false} ReadIsReadingOf(value: string)
    ensures Read(value) == ReadingOf(PartsOf(value))
  {
    CutsOfIsCut(value);
    ReadFromParts(value, CutsOf(value));
  }

  /** Set-then-get with frame for plain text in a value with a recognised scheme. */
  lemma {:induction false} SetGetPlain(value: string, element: nat, text: string)
    requires element in REWRITABLE && CutsOf(value).hasScheme && PlainText(text)
    ensures Read(Rebuild(value, element, text)) == UpdateReading(Read(value), element, text)
  {
    hide CutsOf, ReadAt, Spliced, SpliceAt, HasScheme;
    PlainIsSafe(PartsOf(value), element, text);
    SetGet(value, element, text);
    ReadIsReadingOf(value);
    ReadIsReadingOf(Rebuild(value, element, text));
  }

  lemma {:induction false} PlainIsSafe(p: Parts, element: nat, text: string)
    requires element in REWRITABLE && p.scheme.Some? && PlainText(text)
    ensures SafeText(p, element, text) && KeepsScheme(p, element, text)
  {
  }

  /** Writing a present component's own text back changes no byte, for any input. */
  lemma {:induction false} GetSet(value: string, element: nat)
    requires element <= URI_PORT
    requires element == URI_USER ==> CutsOf(value).hasUser
    requires element == URI_PORT ==> CutsOf(value).hasPort
    requires element == URI_DISPLAY ==> CutsOf(value).angled
    ensures Rebuild(value, element, Component(value, element)) == value
  {
    GetSetAt(value, CutsOf(value), element);
  }

  lemma {:induction false} GetSetAt(v: string, c: Cuts, element: nat)
    requires c.Shape(v) && element <= URI_PORT
    requires element == URI_USER ==> c.hasUser
    requires element == URI_PORT ==> c.hasPort
    requires element == URI_DISPLAY ==> c.angled
    ensures Spliced(v, SpliceAt(v, c, element), ComponentAt(v, c, element)) == v
  {
    hide DisplaySpan;
    var s := SpliceAt(v, c, element);
    if element == URI_DISPLAY {
      SliceOfFront(v, c.addr - 1, s.start, s.end);
    }
    Resplice(v, s.start, s.end);
  }

  lemma {:induction false} Resplice(v: string, i: nat, j: nat)
    requires i <= j <= |v|
    ensures v[..i] + "" + v[i..j] + "" + v[j..] == v
  {
    AdjacentFront(v, i, j);
  }

  lemma {:induction false} SliceOfFront(v: string, n: nat, lo: nat, hi: nat)
    requires lo <= hi <= n <= |v|
    ensures v[..n][lo..hi] == v[lo..hi]
  {
  }

  /** Setting twice is setting once with the second text. */
  lemma {:induction false} SetTwice(value: string, element: nat, first: string, second: string)
    requires element in REWRITABLE
    requires SafeText(PartsOf(value), element, first) && KeepsScheme(PartsOf(value), element, first)
    ensures Rebuild(Rebuild(value, element, first), element, second) == Rebuild(value, element, second)
  {
    SetGet(value, element, first);
    SpliceIsUpdate(value, CutsOf(value), element, second);
    var mid := Rebuild(value, element, first);
    SpliceIsUpdate(mid, CutsOf(mid), element, second);
  }

  /** Rewrites of different parts commute when both texts are plain and a scheme is present. */
  lemma {:induction false} SetCommutes(value: string, e1: nat, e2: nat, t1: string, t2: string)
    requires e1 in REWRITABLE && e2 in REWRITABLE && e1 != e2
    requires CutsOf(value).hasScheme && PlainText(t1) && PlainText(t2)
    ensures Rebuild(Rebuild(value, e1, t1), e2, t2) == Rebuild(Rebuild(value, e2, t2), e1, t1)
  {
    var p := PartsOf(value);
    PlainIsSafe(p, e1, t1);
    PlainIsSafe(p, e2, t2);
    SetBoth(value, e1, t1, e2, t2);
    SetBoth(value, e2, t2, e1, t1);
    UpdatesCommute(p, e1, t1, e2, t2);
  }

  lemma {:induction false} UpdatesCommute(p: Parts, e1: nat, t1: string, e2: nat, t2: string)
    requires e1 in REWRITABLE && e2 in REWRITABLE && e1 != e2
    ensures Update(Update(p, e1, t1), e2, t2) == Update(Update(p, e2, t2), e1, t1)
  {
  }

  lemma {:induction false} SetBoth(value: string, e1: nat, t1: string, e2: nat, t2: string)
    requires e1 in REWRITABLE && e2 in REWRITABLE
    requires SafeText(PartsOf(value), e1, t1) && KeepsScheme(PartsOf(value), e1, t1)
    ensures Rebuild(Rebuild(value, e1, t1), e2, t2) == Update(Update(PartsOf(value), e1, t1), e2, t2).Compose()
  {
    SetGet(value, e1, t1);
    var mid := Rebuild(value, e1, t1);
    SpliceIsUpdate(mid, CutsOf(mid), e2, t2);
  }

  /** Parts with nothing but a scheme, a host and a port. */
  function Bare(scheme: Option<string>, host: string, port: Option<string>): Parts {
    Parts("", scheme, None, host, port, "", "")
  }

  /**
   Without a scheme the law can fail: a bare host spelled like a scheme becomes the
   scheme when a port is inserted, and the port text becomes the host.
   */
  lemma {:induction false} SchemelessPortInsert(host: string, text: string)
    requires host in SCHEMES && PlainText(text)
    ensures PartsOf(host) == Bare(None, host, None)
    ensures PartsOf(Rebuild(host, URI_PORT, text)) == Bare(Some(host), text, None)
  {
    hide CutsOf, PartsAt, Spliced, SpliceAt;
    SchemeWordsArePlain(host);
    BareHost(host);
    SpliceIsUpdate(host, CutsOf(host), URI_PORT, text);
    SchemeAndHost(host, text);
  }

  lemma {:induction false} BareHost(host: string)
    requires PlainText(host)
    ensures PartsOf(host) == Bare(None, host, None)
  {
    hide CutsOf, PartsAt, Canonical;
    BareCanonical(host, None);
    HostText(host);
    PartsCompose(Bare(None, host, None));
  }

  /** A user text that starts with a scheme gives the address that scheme, and the rest is the user. */
  lemma {:induction false} SchemelessUser(host: string, scheme: string, text: string)
    requires scheme in SCHEMES && PlainText(host) && PlainText(text)
    ensures PartsOf(host) == Bare(None, host, None)
    ensures PartsOf(Rebuild(host, URI_USER, scheme + ":" + text)) == Bare(Some(scheme), host, None).(user := Some(text))
  {
    hide CutsOf, PartsAt, Spliced, SpliceAt, Canonical;
    BareHost(host);
    SpliceIsUpdate(host, CutsOf(host), URI_USER, scheme + ":" + text);
    SchemeAndUserText(scheme, text, host);
    SchemeAndUserCanonical(scheme, text, host);
    PartsCompose(Bare(Some(scheme), host, None).(user := Some(text)));
  }

  /** A scheme word written over the host of `host:port` becomes the scheme, and the port text the host. */
  lemma {:induction false} SchemelessHost(host: string, port: string, scheme: string)
    requires scheme in SCHEMES && host !in SCHEMES && PlainText(host) && PlainText(port)
    ensures PartsOf(host + ":" + port) == Bare(None, host, Some(port))
    ensures PartsOf(Rebuild(host + ":" + port, URI_HOST, scheme)) == Bare(Some(scheme), port, None)
  {
    hide CutsOf, PartsAt, Spliced, SpliceAt, Canonical;
    BareHostPort(host, port);
    SpliceIsUpdate(host + ":" + port, CutsOf(host + ":" + port), URI_HOST, scheme);
    SchemeWordsArePlain(scheme);
    SchemeAndHost(scheme, port);
  }

  lemma {:induction false} BareHostPort(host: string, port: string)
    requires host !in SCHEMES && PlainText(host) && PlainText(port)
    ensures PartsOf(host + ":" + port) == Bare(None, host, Some(port))
  {
    hide CutsOf, PartsAt, Canonical;
    BareCanonical(host, Some(port));
    HostPortText(host, port);
    PartsCompose(Bare(None, host, Some(port)));
  }

  lemma {:induction false} BareCanonical(host: string, port: Option<string>)
    requires PlainText(host) && (port.Some? ==> host !in SCHEMES && PlainText(port.value))
    ensures Canonical(Bare(None, host, port))
  {
    hide HasScheme;
    SchemeOfInner(Bare(None, host, port));
    SchemeBeforeColon(host);
  }

  lemma {:induction false} HostText(host: string)
    ensures "" + "" + "" + host + "" + "" + "" == host
  {
  }

  lemma {:induction false} HostPortText(host: string, port: string)
    ensures "" + "" + "" + host + (":" + port) + "" + "" == host + ":" + port
  {
  }

  lemma {:induction false} SchemeAndUserText(scheme: string, user: string, host: string)
    ensures Bare(None, host, None).(user := Some(scheme + ":" + user)).Compose() ==
            Bare(Some(scheme), host, None).(user := Some(user)).Compose()
  {
    UserText(scheme, user, host);
  }

  lemma {:induction false} UserText(a: string, b: string, c: string)
    ensures "" + "" + (a + ":" + b + "@") + c + "" + "" + "" == "" + (a + ":") + (b + "@") + c + "" + "" + ""
  {
  }

  lemma {:induction false} SchemeAndUserCanonical(scheme: string, user: string, host: string)
    requires scheme in SCHEMES && PlainText(user) && PlainText(host)
    ensures Canonical(Bare(Some(scheme), host, None).(user := Some(user)))
  {
    SchemeWordsArePlain(scheme);
  }

  lemma {:induction false} SchemeAndHost(scheme: string, host: string)
    requires scheme in SCHEMES && PlainText(scheme) && PlainText(host)
    ensures PartsOf(Bare(None, scheme, Some(host)).Compose()) == Bare(Some(scheme), host, None)
  {
    SchemeAndHostText(scheme, host);
    SchemeAndHostCanonical(scheme, host);
    PartsCompose(Bare(Some(scheme), host, None));
  }

  lemma {:induction false} SchemeAndHostCanonical(scheme: string, host: string)
    requires scheme in SCHEMES && PlainText(scheme) && PlainText(host)
    ensures Canonical(Bare(Some(scheme), host, None))
  {
  }

  lemma {:induction false} SchemeAndHostText(scheme: string, host: string)
    ensures Bare(None, scheme, Some(host)).Compose() == Bare(Some(scheme), host, None).Compose()
  {
    SameText(scheme, ":", host);
  }

  lemma {:induction false} SameText(a: string, b: string, c: string)
    ensures "" + (a + b) + "" + c + "" + "" + "" == "" + "" + "" + a + (b + c) + "" + ""
  {
  }

  lemma {:induction false} SchemeWordsArePlain(w: string)
    requires w in SCHEMES
    ensures PlainText(w)
  {
    assert w == "sip" || w == "sips" || w == "tel";
  }

  // ---- addresses as they are written ---------------------------------------

  /** The recognised schemes. */
  lemma {:induction false} SchemeWords(w: string)
    ensures w in SCHEMES <==> w == "sip" || w == "sips" || w == "tel"
  {
  }

  /** Parameters and headers: nothing, or text that starts at a ';' or '?'. */
  predicate Trailer(s: string) {
    (s == "" || s[0] == ';' || s[0] == '?') && Avoids(s, '<') && Avoids(s, '>')
  }

  /** A written-out address in brackets is read part by part. */
  lemma {:induction false} AddressReads(
    display: string, scheme: string, user: string, host: string, port: string, params: string, after: string)
    requires Avoids(display, '<') && (scheme == "sip" || scheme == "sips" || scheme == "tel")
    requires PlainText(user) && PlainText(host) && PlainText(port) && Trailer(params)
    ensures
      PartsOf(display + "<" + (scheme + ":") + (user + "@") + host + (":" + port) + params + (">" + after)) ==
      Parts(display + "<", Some(scheme), Some(user), host, Some(port), params, ">" + after)
  {
    hide HasScheme, PartsOf;
    var p := Parts(display + "<", Some(scheme), Some(user), host, Some(port), params, ">" + after);
    SchemeWords(scheme);
    SchemeWordsArePlain(scheme);
    assert p.pre[|display|] == '<' && forall k :: 0 <= k < |display| ==> p.pre[k] == display[k];
    PartsCompose(p);
  }

  /** A bare address with neither scheme, user nor port is all host up to its parameters. */
  lemma {:induction false} HostReads(host: string, params: string)
    requires PlainText(host) && Trailer(params) && Avoids(params, '@')
    ensures PartsOf(host + params) == Parts("", None, None, host, None, params, "")
  {
    hide HasScheme, PartsOf;
    var p := Parts("", None, None, host, None, params, "");
    SchemeOfInner(p);
    assert "" + "" + "" + host + "" + params + "" == host + params;
    PartsCompose(p);
  }
}
