/**
 The abstract syntax of an HMR ruleset: header rules, element rules and the
 parsed match-value / new-value expressions they carry.
 */
module Ast {

  datatype HeaderAction =
    | NoHeaderAction | AddHeader | StoreHeader | Manipulate | ReplaceHeader | FindReplaceAllHeader
    | Delete | DeleteElementOfHeader | DeleteHeader | SipManipHeader | LogHeader | RejectHeader

  datatype ElementAction =
    | NoElementAction | AddElement | StoreElement | ReplaceElement | DeleteElement
    | DeleteHeaderOfElement | FindReplaceAllElement | SipManipElement | LogElement | RejectElement

  datatype ElementType =
    | NoElementType | HeaderValue | HeaderParamName | HeaderParam | UriDisplay | UriUser | UriUserParam
    | UriHost | UriPort | UriParamName | UriParam | UriHeaderName | UriHeader | StatusCode | ReasonPhrase
    | UriUserOnly | UriPhoneNumberOnly

  datatype ComparisonType =
    | CaseSensitive | CaseInsensitive | PatternRule | Boolean | ReferCaseSensitive | ReferCaseInsensitive

  datatype MatchValType = AnyValue | Ip | Fqdn

  datatype MsgType = AnyMessage | Request | Reply | OutOfDialog

  /** What a `$...` reference resolves to. */
  datatype RefKind = Variable | Capture | RuleRef

  /** `captureIndex` is -1 when the reference names no capture. */
  datatype ValueRef = ValueRef(kind: RefKind, name: string, captureIndex: int)

  datatype Segment = Literal(text: string) | Reference(ref: ValueRef)

  datatype Value = Value(raw: string, segments: seq<Segment>, negated: bool, refExpression: bool) {

    predicate Empty() {
      raw == ""
    }

    predicate IsPureLiteral() {
      forall s <- segments :: s.Literal?
    }

    function LiteralText(): string {
      JoinLiterals(segments)
    }

    predicate IsSingleRef() {
      |segments| == 1 && segments[0].Reference?
    }

    predicate IsRegexLiteral() {
      !refExpression && IsPureLiteral()
    }

    /** The text a match-value or a stored pattern stands for. */
    function PatternText(): string {
      if IsPureLiteral() then LiteralText() else raw
    }
  }

  function JoinLiterals(segments: seq<Segment>): string {
    if segments == [] then ""
    else (if segments[0].Literal? then segments[0].text else "") + JoinLiterals(segments[1..])
  }

  datatype ElementRule = ElementRule(
    name: string, parameterName: string, kind: ElementType, action: ElementAction,
    matchValType: MatchValType, comparison: ComparisonType, matchValue: Value, newValue: Value)

  datatype HeaderRule = HeaderRule(
    name: string, headerName: string, action: HeaderAction, comparison: ComparisonType,
    msgType: MsgType, methods: seq<string>, matchValue: Value, newValue: Value,
    elementRules: seq<ElementRule>)
  {
    predicate HasMethodFilter() {
      methods != []
    }
  }

  datatype Ruleset = Ruleset(name: string, headerRules: seq<HeaderRule>)
}
