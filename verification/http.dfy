/** The requests the clients hand to Net::HTTP and the responses they read
    back. Sending is left to a transport function the callers pass in. */
module Http {
  import opened Ruby

  /** The four request classes `fetch` is called with. */
  datatype Verb = HttpGet | HttpPost | HttpPut | HttpDelete

  /** A request as the client builds it: the verb, the path set on the
      parsed base URL, and the value `JSON.dump` serialises as the body. */
  datatype Request = Request(verb: Verb, path: string, body: Value)

  /** What the transport answers: the status code as text, the body, if
      any, and the header fields by lower-case name. */
  datatype Response = Response(code: string, body: Option<string>, header: map<string, string>)

  /** `response.header[name]`: the field's text, or `nil` when it is not
      there. */
  function HeaderValue(resp: Response, name: string): (v: Value)
    ensures v.Str? <==> name in resp.header
    ensures v.Str? ==> v.s == resp.header[name]
    ensures !v.Str? ==> v == Nil
  {
    if name in resp.header then Str(resp.header[name]) else Nil
  }

  /** What a resource's class method leaves behind: the caller's options,
      which `[]=` changes in place, the requests sent, in order, and the
      outcome. */
  datatype Call<T> = Call(data: Value, sent: seq<Request>, result: Result<T>)

  /** An Airwallex model calling `post`, `put`, `get` or `delete` with a
      third argument. The verbs of the `Model` base take a URL and at most
      a body, so once the body is built the call raises `ArgumentError`
      (three given) and nothing is sent. An error raised while building
      the body comes first. */
  function ThreeArgumentCall<T>(data: Value, body: Result<Value>): (r: Call<T>)
    ensures r.data == data && r.sent == []
    ensures body.Raised? ==> r.result == Raised(body.fault)
    ensures body.Ok? ==> r.result == Raised(ArgumentError(3))
  {
    match body
    case Raised(e) => Call(data, [], Raised(e))
    case Ok(_) => Call(data, [], Raised(ArgumentError(3)))
  }

  /** The request a call evidently means to send: the verb and path with
      the body built for it, or the error building the body raised. */
  function Intended(verb: Verb, path: string, body: Result<Value>): (r: Result<Request>)
    ensures r.Ok? <==> body.Ok?
    ensures r.Raised? ==> r.fault == body.fault
    ensures r.Ok? ==> r.value.verb == verb && r.value.path == path && r.value.body == body.value
  {
    match body
    case Raised(e) => Raised(e)
    case Ok(b) => Ok(Request(verb, path, b))
  }
}
