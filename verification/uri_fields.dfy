/**
 Writing one of the URI fields of a message (user or host of the request-URI, From and
 To): the field reads back, and every other field and every other header read as before.
 */
module UriFields {
  import opened Text
  import opened Memory
  import opened Lowering
  import opened Message
  import M = Message
  import opened UriLaws
  import Uri

  /** The value a field is a component of. */
  function FieldValue(m: Message, field: nat): string {
    var r := FieldRefOf(field);
    if r.header.Some? then GetHeader(m, r.header.value) else CurrentUri(m)
  }

  /** Text that can stand in the component without being taken for something else. */
  predicate FieldSafe(m: Message, field: nat, text: string)
    requires field < FIELD_MAX
  {
    var p := PartsOf(FieldValue(m, field));
    SafeText(p, FieldRefOf(field).element, text) && KeepsScheme(p, FieldRefOf(field).element, text)
  }

  /** A rewritten component reads back, and the other one reads as before. */
  lemma {:induction false} ComponentSetGet(value: string, element: nat, text: string, other: nat)
    requires element in REWRITABLE && other in REWRITABLE
    requires SafeText(PartsOf(value), element, text) && KeepsScheme(PartsOf(value), element, text)
    ensures Uri.Component(Uri.Rebuild(value, element, text), other) ==
            if other == element then text else Uri.Component(value, other)
  {
    hide Uri.CutsOf, Uri.Rebuild, SafeText, KeepsScheme, PartsOf;
    UriLaws.SetGet(value, element, text);
    ComponentOfParts(value, other);
    ComponentOfParts(Uri.Rebuild(value, element, text), other);
  }

  function PartText(p: Parts, element: nat): string {
    if element == URI_USER then OrEmpty(p.user) else if element == URI_HOST then p.host else OrEmpty(p.port)
  }

  lemma {:induction false} ComponentOfParts(value: string, element: nat)
    requires element in REWRITABLE
    ensures Uri.Component(value, element) == PartText(PartsOf(value), element)
  {
    hide Uri.CutsOf;
  }

  /** Rewriting a component of a header is setting the header to the rebuilt value. */
  lemma {:induction false} UriHeaderIsSet(m: Message, used: nat, name: string, element: nat, text: string)
    requires SetUriHeader(m, used, name, element, text).ok
    ensures
      var w := SetHeader(m, used, name, Uri.Rebuild(GetHeader(m, name), element, text));
      w.ok && w.msg == SetUriHeader(m, used, name, element, text).msg
  {
    hide Uri.Rebuild, Find;
  }

  /** What a successful write leaves: the rebuilt value in its place, and nothing else changed. */
  lemma {:induction false} FieldWritten(m: Message, used: nat, field: nat, text: string, name: string)
    requires SetField(m, used, field, text).ok
    ensures
      var r := FieldRefOf(field);
      var n := SetField(m, used, field, text).msg;
      var value := Uri.Rebuild(FieldValue(m, field), r.element, text);
      && n == (if r.header.Some? then m.(headers := n.headers) else m.(modUri := n.modUri))
      && GetHeader(n, name) == (if r.header.Some? && IEquals(r.header.value, name) then value else GetHeader(m, name))
      && CurrentUri(n) == (if r.header.None? then value else CurrentUri(m))
  {
    hide Uri.Rebuild, Find, SetHeader;
    var r := FieldRefOf(field);
    if r.header.Some? {
      UriHeaderIsSet(m, used, r.header.value, r.element, text);
      var value := Uri.Rebuild(FieldValue(m, field), r.element, text);
      M.SetGet(m, used, r.header.value, value, name);
      SetRefinesList(m, used, r.header.value, value);
    }
  }

  lemma {:induction false} FieldHeaders(field: nat, other: nat)
    requires field < FIELD_MAX && other < FIELD_MAX
    ensures FieldRefOf(field).element in REWRITABLE
    ensures field != other ==> FieldRefOf(field) != FieldRefOf(other)
    ensures FieldRefOf(field).header.Some? && FieldRefOf(other).header.Some? ==>
      (IEquals(FieldRefOf(field).header.value, FieldRefOf(other).header.value) <==>
       FieldRefOf(field).header == FieldRefOf(other).header)
  {
  }

  /** Set-then-get over the fields: the written one reads the text, every other one reads as before. */
  lemma {:induction false} FieldSetGet(m: Message, used: nat, field: nat, text: string, other: nat)
    requires field < FIELD_MAX && other < FIELD_MAX
    requires SetField(m, used, field, text).ok && FieldSafe(m, field, text)
    ensures GetField(SetField(m, used, field, text).msg, other) == if other == field then text else GetField(m, other)
  {
    hide Uri.Rebuild, Uri.Component, SetField, GetHeader, CurrentUri, IEquals, SafeText, KeepsScheme;
    var r, o := FieldRefOf(field), FieldRefOf(other);
    FieldHeaders(field, other);
    FieldHeaders(other, field);
    FieldWritten(m, used, field, text, if o.header.Some? then o.header.value else "");
    ComponentSetGet(FieldValue(m, field), r.element, text, o.element);
  }

  // ---- the fields by name ---------------------------------------------------

  /** The override if there is one, else the request-URI of the start line. */
  function RequestUri(m: Message): string {
    match m.modUri
    case Some(uri) => uri
    case None => if m.start.requestUri.Some? then m.start.requestUri.value.text else ""
  }

  /** Fields 0 and 1 are user and host of the request-URI, 2 and 3 of From, 4 and 5 of To; there are no others. */
  lemma {:induction false} ReadsByName(m: Message, field: nat)
    ensures GetField(m, 0) == OrEmpty(PartsOf(RequestUri(m)).user) && GetField(m, 1) == PartsOf(RequestUri(m)).host
    ensures GetField(m, 2) == OrEmpty(PartsOf(GetHeader(m, "From")).user) && GetField(m, 3) == PartsOf(GetHeader(m, "From")).host
    ensures GetField(m, 4) == OrEmpty(PartsOf(GetHeader(m, "To")).user) && GetField(m, 5) == PartsOf(GetHeader(m, "To")).host
    ensures field >= 6 ==> GetField(m, field) == ""
  {
    hide Uri.Component, PartsOf, GetHeader;
    ComponentOfParts(RequestUri(m), URI_USER);
    ComponentOfParts(RequestUri(m), URI_HOST);
    ComponentOfParts(GetHeader(m, "From"), URI_USER);
    ComponentOfParts(GetHeader(m, "From"), URI_HOST);
    ComponentOfParts(GetHeader(m, "To"), URI_USER);
    ComponentOfParts(GetHeader(m, "To"), URI_HOST);
  }

  /** `n` is `m` but for the header `name`. */
  ghost predicate OnlyHeader(m: Message, n: Message, name: string) {
    && n.(headers := m.headers) == m
    && (forall other: string :: !IEquals(other, name) ==> GetHeader(n, other) == GetHeader(m, other))
  }

  /** Writing the user (2, 4) or the host (3, 5) of From (2, 3) or To (4, 5). */
  lemma {:induction false} WritesHeaderField(m: Message, used: nat, field: nat, name: string, text: string)
    requires (name == "From" && (field == 2 || field == 3)) || (name == "To" && (field == 4 || field == 5))
    requires SetField(m, used, field, text).ok
    ensures
      var n, p := SetField(m, used, field, text).msg, PartsOf(GetHeader(m, name));
      var user := field == 2 || field == 4;
      var element := if user then URI_USER else URI_HOST;
      && OnlyHeader(m, n, name)
      && (SafeText(p, element, text) && KeepsScheme(p, element, text) <==>
          PartsOf(GetHeader(n, name)) == if user then p.(user := Some(text)) else p.(host := text))
  {
    hide Uri.Rebuild, GetHeader, IEquals, SafeText, KeepsScheme, PartsOf, SetField;
    Reflexive(name);
    forall other: string | !IEquals(other, name)
      ensures GetHeader(SetField(m, used, field, text).msg, other) == GetHeader(m, other)
    {
      Symmetric(name, other);
      FieldWritten(m, used, field, text, other);
    }
    FieldWritten(m, used, field, text, name);
    UriLaws.SetGet(GetHeader(m, name), if field == 2 || field == 4 then URI_USER else URI_HOST, text);
  }

  lemma {:induction false} Reflexive(s: string)
    ensures IEquals(s, s)
  {
  }

  lemma {:induction false} Symmetric(a: string, b: string)
    ensures IEquals(a, b) == IEquals(b, a)
  {
  }

  /** Writing the user (0) or the host (1) of the request-URI. */
  lemma {:induction false} WritesRequestField(m: Message, used: nat, field: nat, text: string)
    requires field == 0 || field == 1
    requires SetField(m, used, field, text).ok
    ensures
      var n, p := SetField(m, used, field, text).msg, PartsOf(RequestUri(m));
      var element := if field == 0 then URI_USER else URI_HOST;
      && n == m.(modUri := Some(RequestUri(n)))
      && (SafeText(p, element, text) && KeepsScheme(p, element, text) <==>
          PartsOf(RequestUri(n)) == if field == 0 then p.(user := Some(text)) else p.(host := text))
  {
    hide Uri.Rebuild, SafeText, KeepsScheme, PartsOf;
    UriLaws.SetGet(RequestUri(m), if field == 0 then URI_USER else URI_HOST, text);
  }

  /** A field is written exactly when its value is there and the rebuilt one fits into 64 KiB; else nothing changes. */
  lemma {:induction false} WritesWhenItFits(m: Message, used: nat, field: nat, text: string)
    ensures SetField(m, used, field, text).ok <==>
      || (field == 0 && used + |Uri.Rebuild(RequestUri(m), URI_USER, text)| <= 65536)
      || (field == 1 && used + |Uri.Rebuild(RequestUri(m), URI_HOST, text)| <= 65536)
      || (field == 2 && HasHeader(m, "From") && used + |Uri.Rebuild(GetHeader(m, "From"), URI_USER, text)| <= 65536)
      || (field == 3 && HasHeader(m, "From") && used + |Uri.Rebuild(GetHeader(m, "From"), URI_HOST, text)| <= 65536)
      || (field == 4 && HasHeader(m, "To") && used + |Uri.Rebuild(GetHeader(m, "To"), URI_USER, text)| <= 65536)
      || (field == 5 && HasHeader(m, "To") && used + |Uri.Rebuild(GetHeader(m, "To"), URI_HOST, text)| <= 65536)
    ensures !SetField(m, used, field, text).ok ==> SetField(m, used, field, text) == Write(false, m, used)
  {
    hide Uri.Rebuild, IEquals;
  }

  predicate HasHeader(m: Message, name: string) {
    exists k :: 0 <= k < |m.headers| && !m.headers[k].removed && IEquals(m.headers[k].name, name)
  }
}
