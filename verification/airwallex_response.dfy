/** What `fetch` of the two Airwallex base classes does with the answer of
    the transport, once the request has been sent. Both classes apply the
    same ordered rules: a blank body, then a parse failure, then a parsed
    value that is not an object, then an array `message`, then any other
    truthy `message`, then success. The `Error` class the rules raise lives
    in lib/airwallex_ruby/error.rb, which is not part of this model: its
    constructors are recorded here by what they receive. */
module AirwallexResponse {
  import opened Text
  import opened Ruby

  /** The one way `fetch` ends. */
  datatype Outcome =
      /** The transport response is returned as it is. */
    | Passed
      /** `Error::InvalidResponse.new(parser message)`. */
    | InvalidResponse(message: string)
      /** `Error.new(parsed body)`: the body is not a JSON object. */
    | ShapeError(body: Value)
      /** `Error.create(description, parsed body)`. */
    | RemoteError(description: Value, body: Value)

  /** `response.body.blank?`: no body, or one made only of white space. */
  predicate BlankBody(body: Option<string>) {
    body.None? || BlankString(body.value)
  }

  /** The `message` field of a parsed object. */
  function MessageOf(v: Value): Value
    requires v.Hash?
  {
    Lookup(v.fields, StrKey("message"))
  }

  /** The description of an array `message`: its first element's
      `description` when that element is an object, otherwise the first
      element's `to_s` (which is `""` for an empty array, whose `first` is
      `nil`). */
  function ArrayDescription(items: seq<Value>): (d: Value)
    ensures |items| > 0 && items[0].Hash? ==> d == Lookup(items[0].fields, StrKey("description"))
    ensures |items| > 0 && !items[0].Hash? ==> d == Str(ToS(items[0]))
    ensures |items| == 0 ==> d == Str("")
  {
    var first := if |items| > 0 then items[0] else Nil;
    if first.Hash? then Lookup(first.fields, StrKey("description")) else Str(ToS(first))
  }

  /** Lines 79-101 of the `Model` base and 65-87 of the Basic-auth base,
      with `parse` standing for `JSON.parse`. */
  function Classify(body: Option<string>, parse: string -> Parse): (r: Outcome)
    // the response passes through exactly when the body is blank, or it
    // parses to an object whose `message` is absent, `nil` or `false`
    ensures r == Passed <==>
      BlankBody(body) ||
      (parse(body.value).Parsed? && parse(body.value).value.Hash? && !Truthy(MessageOf(parse(body.value).value)))
    // only a non-blank body that does not parse is reported as invalid,
    // with the parser's own message
    ensures r.InvalidResponse? <==> !BlankBody(body) && parse(body.value).Unparsable?
    ensures r.InvalidResponse? ==> r.message == parse(body.value).message
    // every parsed value that is not an object, arrays included, is an
    // error carrying that value
    ensures r.ShapeError? <==> !BlankBody(body) && parse(body.value).Parsed? && !parse(body.value).value.Hash?
    ensures r.ShapeError? ==> r.body == parse(body.value).value
    // an object with a truthy `message` is a remote error carrying the
    // whole object; an array `message` is looked at first, and even an
    // empty array is truthy
    ensures r.RemoteError? <==>
      !BlankBody(body) && parse(body.value).Parsed? && parse(body.value).value.Hash? &&
      Truthy(MessageOf(parse(body.value).value))
    ensures r.RemoteError? ==>
      r.body == parse(body.value).value &&
      var m := MessageOf(parse(body.value).value);
      r.description == (if m.Arr? then ArrayDescription(m.items) else Str(ToS(m)))
  {
    if BlankBody(body) then Passed
    else match parse(body.value)
      case Unparsable(m) => InvalidResponse(m)
      case Parsed(v) =>
        if !v.Hash? then ShapeError(v)
        else if MessageOf(v).Arr? then RemoteError(ArrayDescription(MessageOf(v).items), v)
        else if Truthy(MessageOf(v)) then RemoteError(Str(ToS(MessageOf(v))), v)
        else Passed
  }

  /** A blank body is never parsed: the outcome does not depend on the
      parser at all. */
  lemma BlankNeverParsed(body: Option<string>, p: string -> Parse, q: string -> Parse)
    requires BlankBody(body)
    ensures Classify(body, p) == Classify(body, q) == Passed
  {
  }

  /** An object `message` is not special-cased: the description is its
      `to_s`, whatever a `description` field inside it says. */
  lemma ObjectMessageUsesToS(body: string, parse: string -> Parse, fs: seq<Field>, m: seq<Field>)
    requires !BlankString(body)
    requires parse(body) == Parsed(Hash(fs))
    requires Lookup(fs, StrKey("message")) == Hash(m)
    ensures Classify(Some(body), parse) == RemoteError(Str(Inspect(Hash(m))), Hash(fs))
  {
  }

  /** `{"message": [{"description": "bad currency"}]}` is an error with the
      text "bad currency". */
  lemma ArrayMessageExample(body: string, parse: string -> Parse)
    requires !BlankString(body)
    requires parse(body) == Parsed(Hash([Field(StrKey("message"),
      Arr([Hash([Field(StrKey("description"), Str("bad currency"))])]))]))
    ensures Classify(Some(body), parse) == RemoteError(Str("bad currency"), parse(body).value)
  {
  }

  /** `{"message": "not found"}` is an error with the text "not found". */
  lemma StringMessageExample(body: string, parse: string -> Parse)
    requires !BlankString(body)
    requires parse(body) == Parsed(Hash([Field(StrKey("message"), Str("not found"))]))
    ensures Classify(Some(body), parse) == RemoteError(Str("not found"), parse(body).value)
  {
  }

  /** `{"status": "ok", "items": []}` is a success. */
  lemma SuccessExample(body: string, parse: string -> Parse)
    requires !BlankString(body)
    requires parse(body) == Parsed(Hash([Field(StrKey("status"), Str("ok")), Field(StrKey("items"), Arr([]))]))
    ensures Classify(Some(body), parse) == Passed
  {
  }

  /** The key `:message` written as a Symbol is not the key `"message"`
      that `JSON.parse` produces and `fetch` looks for. */
  lemma SymbolMessageIgnored(body: string, parse: string -> Parse)
    requires !BlankString(body)
    requires parse(body) == Parsed(Hash([Field(SymKey("message"), Str("not found"))]))
    ensures Classify(Some(body), parse) == Passed
  {
  }
}
