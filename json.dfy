/** `JSON.stringify` on the modelled values. The library uses it three
    times: in the `message` of every error, in the `expected` text of `is`,
    and as the second test of deep equality. */
module Json {
  import opened Options
  import opened Text
  import opened Values

  /** `JSON.stringify(v)`; `None` where JavaScript answers `undefined`
      (for undefined itself and for functions). */
  function Stringify(v: Value): (r: Option<string>)
    ensures r.None? <==> v.Undefined? || v.Func?
  {
    match v
    case Null => Some("null")
    case NaN => Some("null")
    case Undefined => None
    case Func(_) => None
    case Bool(b) => Some(if b then "true" else "false")
    case Num(n) => Some(IntToString(n))
    case Str(s) => Some(QuoteJson(s))
    case Date(iso) => Some(QuoteJson(iso))
    case RegExp(_) => Some("{}")
    case Arr(es) => Some("[" + Join(ElementTexts(es), ",") + "]")
    case Obj(fs) => Some("{" + Join(MemberTexts(fs), ",") + "}")
  }

  /** Array elements: an element that has no JSON text is written `null`. */
  function ElementTexts(es: seq<Value>): seq<string> {
    if |es| == 0 then []
    else
      var t := match Stringify(es[0]) case Some(t) => t case None => "null";
      [t] + ElementTexts(es[1..])
  }

  /** Object members: a field whose value has no JSON text is skipped. */
  function MemberTexts(fs: seq<(string, Value)>): seq<string> {
    if |fs| == 0 then []
    else
      assert fs[0] in fs && fs[0].1 < fs[0];
      var member := match Stringify(fs[0].1)
        case Some(t) => [QuoteJson(fs[0].0) + ":" + t]
        case None => [];
      member + MemberTexts(fs[1..])
  }

  /** `JSON.stringify(v)` once concatenated into a string: `undefined`
      becomes the text "undefined". */
  function JsonText(v: Value): string {
    match Stringify(v)
    case Some(t) => t
    case None => "undefined"
  }
}
