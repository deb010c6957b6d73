/** The BlueSnap error object of lib/bluesnap_ruby/error.rb: the error
    value and the response body it was created with, and the two texts it
    reports. */
module BluesnapError {
  import opened Ruby

  datatype Error = Error(error: Value, responseBody: Value)

  /** `Error.create(description, response_body = nil)` called with the
      arguments `args`: one or two arguments build the error, any other
      number raises `ArgumentError`. */
  function Create(args: seq<Value>): (r: Result<Error>)
    ensures r.Ok? <==> 1 <= |args| <= 2
    ensures r.Ok? ==> r.value.error == args[0]
    ensures r.Ok? ==> r.value.responseBody == (if |args| == 2 then args[1] else Nil)
    ensures r.Raised? ==> r.fault == ArgumentError(|args|)
  {
    if 1 <= |args| <= 2 then Ok(Error(args[0], if |args| == 2 then args[1] else Nil))
    else Raised(ArgumentError(|args|))
  }

  /** `message`: the error's `to_s`. */
  function Message(e: Error): string {
    ToS(e.error)
  }

  /** `full_message`: the message, a space, and the body's `to_s`. */
  function FullMessage(e: Error): (m: string)
    ensures |m| == |Message(e)| + 1 + |ToS(e.responseBody)|
    ensures m[..|Message(e)|] == Message(e) && m[|Message(e)|] == ' '
    ensures m[|Message(e)| + 1..] == ToS(e.responseBody)
  {
    Message(e) + " " + ToS(e.responseBody)
  }

  /** Created without a body, the full message is the message followed by
      a single space. */
  lemma FullMessageWithoutBody(d: Value)
    ensures Create([d]).Ok? && Create([d]).value.responseBody == Nil
    ensures FullMessage(Create([d]).value) == ToS(d) + " "
  {
    assert FullMessage(Create([d]).value) == ToS(d) + " " + "";
  }

  /** The three-argument call of the BlueSnap `fetch` always raises. */
  lemma CreateWithThreeArguments(a: Value, b: Value, c: Value)
    ensures Create([a, b, c]) == Raised(ArgumentError(3))
  {
  }
}
