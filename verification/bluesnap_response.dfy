/** What `fetch` of the BlueSnap base class does with the answer of the
    transport. Every body is parsed, blank or not; a parsed value with a
    truthy `error` is reported, and otherwise the value under `response` is
    unwrapped. As written, three of the calls on these paths cannot run:
    `Error::InvalidResponse` is not defined by lib/bluesnap_ruby/error.rb,
    `Error.create` is given three arguments but takes at most two, and
    `parse_object_tokens` is defined nowhere. The model follows the code,
    so those paths raise. */
module BluesnapResponse {
  import opened Text
  import opened Ruby

  /** `v['name']` for the receivers `JSON.parse` can return: a hash looks
      the String key up; a String (or Symbol) returns the text itself when
      it occurs in it and `nil` otherwise; an array or an integer refuses a
      String index; `nil`, `true` and `false` have no `[]`. */
  function Index(v: Value, name: string): (r: Result<Value>)
    ensures v.Hash? ==> r == Ok(Lookup(v.fields, StrKey(name)))
    ensures (v.Str? || v.Sym?) ==> r.Ok? && (r.value == Str(name) || r.value == Nil)
    ensures (v.Arr? || v.Int?) ==> r == Raised(TypeError("no implicit conversion of String into Integer"))
    ensures (v.Nil? || v.Bool?) ==> r == Raised(NoMethodError("[]"))
  {
    match v
    case Hash(fs) => Ok(Lookup(fs, StrKey(name)))
    case Str(s) => Ok(if Contains(s, name) then Str(name) else Nil)
    case Sym(n) => Ok(if Contains(n, name) then Str(name) else Nil)
    case Arr(_) => Raised(TypeError("no implicit conversion of String into Integer"))
    case Int(_) => Raised(TypeError("no implicit conversion of String into Integer"))
    case _ => Raised(NoMethodError("[]"))
  }

  /** `response.is_a?(Hash) ? parse_object_tokens(response) : response.map { ... }`. */
  function Unwrap(inner: Value): (r: Result<Value>)
    ensures r.Ok? <==> inner == Arr([])
    ensures r.Ok? ==> r.value == inner
  {
    match inner
    case Hash(_) => Raised(NoMethodError("parse_object_tokens"))
    case Arr(items) => if |items| == 0 then Ok(Arr([])) else Raised(NoMethodError("parse_object_tokens"))
    case _ => Raised(NoMethodError("map"))
  }

  /** Lines 61-72 of the BlueSnap base, with `parse` standing for
      `JSON.parse`. `body` is `None` when the transport gave no body, which
      `JSON.parse` refuses as it refuses any non-String. */
  function Classify(body: Option<string>, parse: string -> Parse): (r: Result<Value>)
    // no blank shortcut: no body, or a body that does not parse, fails
    ensures body.None? ==> r.Raised? && r.fault.TypeError?
    ensures body.Some? && parse(body.value).Unparsable? ==>
      r == Raised(NameError("BluesnapRuby::Error::InvalidResponse"))
    // an object with a truthy `error` takes the failure path before any
    // unwrapping, and the three-argument `Error.create` raises
    ensures (body.Some? && parse(body.value).Parsed? && parse(body.value).value.Hash? &&
             Truthy(Lookup(parse(body.value).value.fields, StrKey("error")))) ==>
      r == Raised(ArgumentError(3))
    // the only success is an object without a truthy `error` whose
    // `response` is an empty array, and the result is that array
    ensures r.Ok? <==>
      body.Some? && parse(body.value).Parsed? && parse(body.value).value.Hash? &&
      !Truthy(Lookup(parse(body.value).value.fields, StrKey("error"))) &&
      Lookup(parse(body.value).value.fields, StrKey("response")) == Arr([])
    ensures r.Ok? ==> r.value == Lookup(parse(body.value).value.fields, StrKey("response"))
  {
    if body.None? then Raised(TypeError("no implicit conversion of nil into String"))
    else match parse(body.value)
      case Unparsable(_) => Raised(NameError("BluesnapRuby::Error::InvalidResponse"))
      case Parsed(v) =>
        match Index(v, "error")
        case Raised(e) => Raised(e)
        case Ok(err) =>
          if Truthy(err) then Raised(ArgumentError(3))
          else
            match Index(v, "response")
            case Raised(e) => Raised(e)
            case Ok(inner) => Unwrap(inner)
  }

  /** A blank body is parsed like any other: a parser that refuses it makes
      the call fail. */
  lemma BlankBodyIsParsed(parse: string -> Parse)
    requires parse("").Unparsable?
    ensures Classify(Some(""), parse).Raised?
  {
  }

  /** A String body that mentions `error` takes the error path too: Ruby's
      `String#[]` finds the text, which is truthy. */
  lemma StringMentioningError(body: string, parse: string -> Parse, s: string)
    requires parse(body) == Parsed(Str(s)) && Contains(s, "error")
    ensures Classify(Some(body), parse) == Raised(ArgumentError(3))
  {
  }

  /** `response.<name>` on what the BlueSnap `post`, `put`, `get` and
      `delete` return, as the resources read their answers
      (`response.body`, `response.header`, `response.code`): those calls
      return the value `fetch` unwrapped, not the transport response, and
      that value has none of these methods. No answer is ever read back. */
  function ReadBack(body: Option<string>, parse: string -> Parse, name: string): (r: Result<Value>)
    ensures r.Raised?
    ensures Classify(body, parse).Ok? ==> r.fault == NoMethodError(name)
    ensures Classify(body, parse).Raised? ==> r == Classify(body, parse)
  {
    match Classify(body, parse)
    case Raised(e) => Raised(e)
    case Ok(_) => Raised(NoMethodError(name))
  }
}
