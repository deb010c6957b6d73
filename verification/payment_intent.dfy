/** The Airwallex `PaymentIntent` model of
    lib/airwallex_ruby/models/payment_intent.rb, the representative
    Airwallex resource: `create` and `update` send the declared attributes
    but the id, snake-cased; five actions forward the caller's data
    unfiltered. Every call passes three arguments to the `Model` base's
    `post`, which takes at most two, so as written each raises
    `ArgumentError` before a request is sent; the `...Request` functions
    are the requests the methods evidently mean to send. */
module PaymentIntent {
  import opened Text
  import opened Ruby
  import opened Inflection
  import opened Registry
  import opened Bodies
  import opened Http

  /** The names declared with `attr_accessor`, one constant per line of
      the declaration. */
  const Line4: seq<string> := ["id", "additional_info", "amount", "cancellation_reason", "cancelled_at", "captured_amount"]
  const Line5: seq<string> := ["client_secret", "connected_account_id", "conversion_quote_id", "created_at", "currency"]
  const Line6: seq<string> := ["customer", "customer_id", "descriptor", "funds_split_data", "invoice_id", "latest_payment_attempt"]
  const Line7: seq<string> := ["merchant_order_id", "metadata", "next_action", "order", "payment_consent", "payment_consent_id"]
  const Line8: seq<string> := ["payment_link_id", "payment_method_options", "request_id", "return_url", "risk_control_options"]
  const Line9: seq<string> := ["status", "triggered_by", "updated_at"]

  /** The declared names, in order. */
  const Attrs: seq<string> := Line4 + Line5 + Line6 + Line7 + Line8 + Line9

  const Endpoint := "/pa/payment_intents"
  const IdName := "id"

  /** The names `create` and `update` may send. */
  function CreateNames(): seq<string> {
    Without(Attrs, IdName)
  }

  // The `Line…` lemmas below are proof helpers for `AttrsSnake`: each
  // checks one source line of the attribute list, a few names at a time, so
  // that no single obligation grows too large. They state nothing of their own.
  lemma Line4SnakeHead()
    ensures forall i :: 0 <= i < 3 ==> IsSnake(Line4[i])
  {
    LowerWordsSnake(Line4[0]);
    LowerWordsSnake(Line4[1]);
    LowerWordsSnake(Line4[2]);
  }

  lemma Line4SnakeTail()
    ensures forall i :: 3 <= i < 6 ==> IsSnake(Line4[i])
  {
    LowerWordsSnake(Line4[3]);
    LowerWordsSnake(Line4[4]);
    LowerWordsSnake(Line4[5]);
  }

  lemma Line4Snake()
    ensures AllSnake(Line4)
  {
    Line4SnakeHead();
    Line4SnakeTail();
  }

  lemma Line5SnakeHead()
    ensures forall i :: 0 <= i < 2 ==> IsSnake(Line5[i])
  {
    LowerWordsSnake(Line5[0]);
    LowerWordsSnake(Line5[1]);
  }

  lemma Line5SnakeTail()
    ensures forall i :: 2 <= i < 5 ==> IsSnake(Line5[i])
  {
    LowerWordsSnake(Line5[2]);
    LowerWordsSnake(Line5[3]);
    LowerWordsSnake(Line5[4]);
  }

  lemma Line5Snake()
    ensures AllSnake(Line5)
  {
    Line5SnakeHead();
    Line5SnakeTail();
  }

  lemma Line6SnakeHead()
    ensures forall i :: 0 <= i < 3 ==> IsSnake(Line6[i])
  {
    LowerWordsSnake(Line6[0]);
    LowerWordsSnake(Line6[1]);
    LowerWordsSnake(Line6[2]);
  }

  lemma Line6SnakeTail()
    ensures forall i :: 3 <= i < 6 ==> IsSnake(Line6[i])
  {
    LowerWordsSnake(Line6[3]);
    LowerWordsSnake(Line6[4]);
    LowerWordsSnake(Line6[5]);
  }

  lemma Line6Snake()
    ensures AllSnake(Line6)
  {
    Line6SnakeHead();
    Line6SnakeTail();
  }

  lemma Line7SnakeHead()
    ensures forall i :: 0 <= i < 3 ==> IsSnake(Line7[i])
  {
    LowerWordsSnake(Line7[0]);
    LowerWordsSnake(Line7[1]);
    LowerWordsSnake(Line7[2]);
  }

  lemma Line7SnakeTail()
    ensures forall i :: 3 <= i < 6 ==> IsSnake(Line7[i])
  {
    LowerWordsSnake(Line7[3]);
    LowerWordsSnake(Line7[4]);
    LowerWordsSnake(Line7[5]);
  }

  lemma Line7Snake()
    ensures AllSnake(Line7)
  {
    Line7SnakeHead();
    Line7SnakeTail();
  }

  lemma Line8SnakeHead()
    ensures forall i :: 0 <= i < 2 ==> IsSnake(Line8[i])
  {
    LowerWordsSnake(Line8[0]);
    LowerWordsSnake(Line8[1]);
  }

  lemma Line8SnakeTail()
    ensures forall i :: 2 <= i < 5 ==> IsSnake(Line8[i])
  {
    LowerWordsSnake(Line8[2]);
    LowerWordsSnake(Line8[3]);
    LowerWordsSnake(Line8[4]);
  }

  lemma Line8Snake()
    ensures AllSnake(Line8)
  {
    Line8SnakeHead();
    Line8SnakeTail();
  }

  lemma Line9Snake()
    ensures AllSnake(Line9)
  {
    LowerWordsSnake(Line9[0]);
    LowerWordsSnake(Line9[1]);
    LowerWordsSnake(Line9[2]);
  }

  lemma AttrsSnake()
    ensures AllSnake(Attrs)
  {
    Line4Snake(); Line5Snake(); Line6Snake(); Line7Snake(); Line8Snake(); Line9Snake();
    AllSnakeConcat(Line4, Line5);
    AllSnakeConcat(Line4 + Line5, Line6);
    AllSnakeConcat(Line4 + Line5 + Line6, Line7);
    AllSnakeConcat(Line4 + Line5 + Line6 + Line7, Line8);
    AllSnakeConcat(Line4 + Line5 + Line6 + Line7 + Line8, Line9);
  }

  lemma CreateNamesSnake()
    ensures AllSnake(CreateNames())
  {
    AttrsSnake();
    forall i | 0 <= i < |CreateNames()| ensures IsSnake(CreateNames()[i]) {
      assert CreateNames()[i] in CreateNames();
      var j :| 0 <= j < |Attrs| && Attrs[j] == CreateNames()[i];
    }
  }

  /** The body `create` and `update` build. */
  function CreateBody(data: Value): (r: Result<Value>)
    ensures !(data.Hash? || data.Arr?) ==> r == Raised(NoMethodError("select"))
    ensures data.Hash? ==> r.Ok? && r.value.Hash?
  {
    ModelBody(CreateNames(), data)
  }

  /** A name reaches the body exactly when it is a declared attribute other
      than the id and the data has it as a Symbol or a String key: the id
      is never sent, and every other attribute the caller gives is. */
  lemma CreateBodyKeys(fs: seq<Field>, n: string)
    ensures SymKey(n) in KeysOf(CreateBody(Hash(fs)).value.fields) <==>
      n in Attrs && n != IdName && (SymKey(n) in KeysOf(fs) || StrKey(n) in KeysOf(fs))
  {
    CreateNamesSnake();
    SnakeNamesKept(CreateNames(), fs, n);
  }

  /** `PaymentIntent.create(data, options)` as written. */
  function Create(data: Value): Call<Record> {
    ThreeArgumentCall(data, CreateBody(data))
  }

  /** The POST `create` means to send, under the configured base path. It
      can be built for any hash or array of data, and for a hash it never
      carries the id. */
  function CreateRequest(base: string, data: Value): (r: Result<Request>)
    ensures r.Ok? <==> data.Hash? || data.Arr?
    ensures r.Ok? ==> r.value.verb == HttpPost && r.value.path == base + Endpoint + "/create"
    ensures r.Ok? ==> r.value.body == CreateBody(data).value
    ensures data.Hash? ==> r.value.body.Hash? && SymKey(IdName) !in KeysOf(r.value.body.fields)
  {
    if data.Hash? then
      CreateBodyKeys(data.fields, IdName);
      Intended(HttpPost, base + Endpoint + "/create", CreateBody(data))
    else
      Intended(HttpPost, base + Endpoint + "/create", CreateBody(data))
  }

  /** `payment_intent.update(data, options)` as written: the same body as
      `create`, then a three-argument `post`. */
  function Update(rec: Record, data: Value): (r: Call<Record>)
    ensures r == Create(data)
  {
    ThreeArgumentCall(data, CreateBody(data))
  }

  /** The POST `update` means to send: the body `create` would send, to
      the path of the intent's own id. */
  function UpdateRequest(base: string, rec: Record, data: Value): (r: Result<Request>)
    ensures r.Ok? <==> CreateRequest(base, data).Ok?
    ensures r.Ok? ==> r.value.body == CreateRequest(base, data).value.body
    ensures r.Ok? ==> r.value.path == base + Endpoint + "/" + ToS(Read(rec, IdName)) + "/update"
  {
    Intended(HttpPost, base + Endpoint + "/" + ToS(Read(rec, IdName)) + "/update", CreateBody(data))
  }

  /** The intent `PaymentIntent.update(id, ...)` builds first. */
  function Placeholder(id: Value): Result<Record> {
    Construct(Some(Attrs), Hash([Field(SymKey(IdName), id)]))
  }

  /** `PaymentIntent.update(id, data, options)` as written. */
  function UpdateById(id: Value, data: Value): (r: Call<Record>)
    ensures Placeholder(id).Ok? ==> r == Update(Placeholder(id).value, data)
  {
    match Placeholder(id)
    case Raised(e) => Call(data, [], Raised(e))
    case Ok(rec) => Update(rec, data)
  }

  /** The request the class `update` means to send. */
  function UpdateByIdRequest(base: string, id: Value, data: Value): (r: Result<Request>)
    ensures Placeholder(id).Ok? ==> r == UpdateRequest(base, Placeholder(id).value, data)
  {
    match Placeholder(id)
    case Raised(e) => Raised(e)
    case Ok(rec) => UpdateRequest(base, rec, data)
  }

  /** The intent built from an id holds that id, so the class `update`
      addresses it, with the body `create` would send. */
  lemma UpdateByIdTargetsId(base: string, id: Value, fs: seq<Field>)
    requires !id.Hash? && !id.Arr?
    ensures var r := UpdateByIdRequest(base, id, Hash(fs));
      r.Ok? && r.value.verb == HttpPost && r.value.path == base + Endpoint + "/" + ToS(id) + "/update" &&
      r.value.body == CreateRequest(base, Hash(fs)).value.body
  {
    var fs1 := [Field(SymKey(IdName), id)];
    assert Attrs[0] == IdName;
    AttrsSnake();
    UnderscoreFixed(IdName);
    ConstructLastWins(Attrs, fs1, 0);
  }

  /** The five actions that post the caller's data as it is. */
  datatype Action = Confirm | ConfirmContinue | IncrementAuthorization | Capture | Cancel

  function ActionName(a: Action): string {
    match a
    case Confirm => "confirm"
    case ConfirmContinue => "confirm_continue"
    case IncrementAuthorization => "increment_authorization"
    case Capture => "capture"
    case Cancel => "cancel"
  }

  /** An action as written. */
  function ActionCall(a: Action, id: Value, data: Value): (r: Call<Record>)
    ensures r.data == data && r.sent == [] && r.result == Raised(ArgumentError(3))
  {
    ThreeArgumentCall(data, Ok(data))
  }

  /** The POST an action means to send: the caller's data, whatever it is,
      to the action's path under the intent. */
  function ActionRequest(base: string, a: Action, id: Value, data: Value): (r: Request)
    ensures r.verb == HttpPost && r.body == data
    ensures r.path == base + Endpoint + "/" + ToS(id) + "/" + ActionName(a)
  {
    Request(HttpPost, base + Endpoint + "/" + ToS(id) + "/" + ActionName(a), data)
  }

  /** Unlike `create`, an action forwards every key, the id included. */
  lemma ActionsForwardEverything(base: string, a: Action, id: Value, fs: seq<Field>)
    requires SymKey(IdName) in KeysOf(fs)
    ensures SymKey(IdName) in KeysOf(ActionRequest(base, a, id, Hash(fs)).body.fields)
    ensures SymKey(IdName) !in KeysOf(CreateRequest(base, Hash(fs)).value.body.fields)
  {
    CreateBodyKeys(fs, IdName);
  }

  /** The five actions address five different paths. */
  lemma ActionPathsDistinct(base: string, a: Action, b: Action, id: Value, data: Value)
    requires a != b
    ensures ActionRequest(base, a, id, data).path != ActionRequest(base, b, id, data).path
  {
    var p := base + Endpoint + "/" + ToS(id) + "/";
    var x, y := ActionName(a), ActionName(b);
    assert (p + x)[|p|..] == x;
    assert (p + y)[|p|..] == y;
  }

  /** As written, no method of the resource sends anything. */
  lemma NothingSentAsWritten(id: Value, rec: Record, a: Action, data: Value)
    ensures Create(data).sent == [] && Update(rec, data).sent == [] && UpdateById(id, data).sent == []
    ensures ActionCall(a, id, data).sent == []
    ensures data.Hash? ==> Create(data).result == Raised(ArgumentError(3))
  {
  }
}
