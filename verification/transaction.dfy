/** The BlueSnap `Transaction` resource of lib/bluesnap_ruby/transaction.rb.

    Every method that sends a body asks its class for
    `parse_body_for_request`. The BlueSnap base does not define that
    method; its helper is `parse_options_for_request`. So `create`,
    `auth_capture`, `auth_only`, `update`, `capture` and `auth_reversal`
    raise before any request is built, after the `[]=` they make on the
    caller's hash. The functions below take the helper as a parameter:
    `MissingBodyHelper()` gives the code as written, and
    `OptionsHelper(camelize)` gives the requests the methods evidently mean
    to send. Answers are read with `response.body`, which the value the
    BlueSnap `fetch` unwraps does not have, so no call returns a
    transaction. */
module Transaction {
  import opened Ruby
  import opened Registry
  import opened Bodies
  import opened Http
  import BluesnapResponse

  /** The names declared with `attr_accessor`, in order. */
  const Attrs: seq<string> := [
    "transaction_id", "wallet_id", "wallet", "amount", "usd_amount", "open_to_capture",
    "vaulted_shopper_id", "merchant_transaction_id", "soft_descriptor",
    "descriptor_phone_number", "tax_reference", "vendors_info", "card_holder_info",
    "currency", "transaction_fraud_info", "credit_card", "card_transaction_type",
    "three_d_secure", "transaction_meta_data", "pf_token", "level3_data", "store_card",
    "network_transaction_info", "transaction_order_source", "transaction_initiator",
    "transaction_approval_date", "transaction_approval_time"]

  const Endpoint := "/services/2/transactions"
  const IdName := "transaction_id"
  const TypeName := "card_transaction_type"
  const MerchantIdName := "merchant_transaction_id"

  /** The names `create` may send: all but the transaction id. */
  function CreateNames(): seq<string> {
    Without(Attrs, IdName)
  }

  /** What sending `req` reads back: `JSON.parse(response.body)` on the
      value `fetch` unwrapped, which always raises. */
  function Answer(req: Request, transport: Request -> Response, parse: string -> Parse): (r: Result<Record>)
    ensures r.Raised?
    ensures r.fault == BluesnapResponse.ReadBack(transport(req).body, parse, "body").fault
  {
    Raised(BluesnapResponse.ReadBack(transport(req).body, parse, "body").fault)
  }

  /** `create(transaction_data)`: a POST to the endpoint with the body the
      helper builds from every name but the id. Nothing is sent when the
      helper raises. The caller's hash is left as it is. */
  function Create(data: Value, helper: BodyHelper, transport: Request -> Response,
                  parse: string -> Parse): (r: Call<Record>)
    ensures r.data == data && r.result.Raised?
    ensures helper(CreateNames(), data).Raised? <==> r.sent == []
    ensures helper(CreateNames(), data).Raised? ==> r.result == Raised(helper(CreateNames(), data).fault)
    ensures helper(CreateNames(), data).Ok? ==>
      r.sent == [Request(HttpPost, Endpoint, helper(CreateNames(), data).value)]
  {
    match helper(CreateNames(), data)
    case Raised(e) => Call(data, [], Raised(e))
    case Ok(body) =>
      var req := Request(HttpPost, Endpoint, body);
      Call(data, [req], Answer(req, transport, parse))
  }

  /** `auth_capture` and `auth_only`: `transaction_data[:card_transaction_type]
      = kind`, which the caller sees, then `create`. A receiver without
      `[]=` raises before anything is sent. */
  function CreateOfKind(kind: string, data: Value, helper: BodyHelper, transport: Request -> Response,
                        parse: string -> Parse): (r: Call<Record>)
    ensures data.Hash? ==> r.data.Hash? && Lookup(r.data.fields, SymKey(TypeName)) == Str(kind)
    ensures data.Hash? ==> forall k :: k != SymKey(TypeName) ==> Lookup(r.data.fields, k) == Lookup(data.fields, k)
    ensures !data.Hash? ==> r == Call(data, [], Raised(IndexAssign(data, TypeName, Str(kind)).fault))
    ensures r.result.Raised?
  {
    match IndexAssign(data, TypeName, Str(kind))
    case Raised(e) => Call(data, [], Raised(e))
    case Ok(stamped) => Create(stamped, helper, transport, parse)
  }

  function AuthCapture(data: Value, helper: BodyHelper, transport: Request -> Response,
                       parse: string -> Parse): Call<Record>
  {
    CreateOfKind("AUTH_CAPTURE", data, helper, transport, parse)
  }

  function AuthOnly(data: Value, helper: BodyHelper, transport: Request -> Response,
                    parse: string -> Parse): Call<Record>
  {
    CreateOfKind("AUTH_ONLY", data, helper, transport, parse)
  }

  /** `update(transaction_id, transaction_data)`: the id is stored in the
      caller's hash under `:transaction_id`, then a PUT to the endpoint
      carries the body the helper builds from every name. */
  function Update(id: Value, data: Value, helper: BodyHelper, transport: Request -> Response,
                  parse: string -> Parse): (r: Call<Record>)
    ensures data.Hash? ==> r.data.Hash? && Lookup(r.data.fields, SymKey(IdName)) == id
    ensures data.Hash? ==> forall k :: k != SymKey(IdName) ==> Lookup(r.data.fields, k) == Lookup(data.fields, k)
    ensures !data.Hash? ==> r.sent == [] && r.data == data
    ensures data.Hash? ==> (r.sent == [] <==> helper(Attrs, r.data).Raised?)
    ensures data.Hash? && helper(Attrs, r.data).Ok? ==>
      r.sent == [Request(HttpPut, Endpoint, helper(Attrs, r.data).value)]
    ensures r.result.Raised?
  {
    match IndexAssign(data, IdName, id)
    case Raised(e) => Call(data, [], Raised(e))
    case Ok(stamped) =>
      match helper(Attrs, stamped)
      case Raised(e) => Call(stamped, [], Raised(e))
      case Ok(body) =>
        var req := Request(HttpPut, Endpoint, body);
        Call(stamped, [req], Answer(req, transport, parse))
  }

  /** `capture(transaction_id, transaction_data)`: the kind `CAPTURE` is
      stored in the caller's hash, then `update`. */
  function Capture(id: Value, data: Value, helper: BodyHelper, transport: Request -> Response,
                   parse: string -> Parse): (r: Call<Record>)
    ensures data.Hash? ==> r.data.Hash?
    ensures data.Hash? ==> Lookup(r.data.fields, SymKey(TypeName)) == Str("CAPTURE")
    ensures data.Hash? ==> Lookup(r.data.fields, SymKey(IdName)) == id
    ensures !data.Hash? ==> r.sent == [] && r.data == data
  {
    match IndexAssign(data, TypeName, Str("CAPTURE"))
    case Raised(e) => Call(data, [], Raised(e))
    case Ok(stamped) => Update(id, stamped, helper, transport, parse)
  }

  /** The hash `auth_reversal` hands to `update`: the kind `AUTH_REVERSAL`
      and the id under `:merchant_transaction_id` when
      `options[:using_merchant_id]` is truthy, under `:transaction_id`
      otherwise. */
  function ReversalBody(id: Value, options: Value): (r: Result<Value>)
    ensures r.Ok? <==> options.Hash?
    ensures !options.Hash? ==> r == Raised(IndexBySymbol(options, "using_merchant_id").fault)
    ensures r.Ok? ==> r.value.Hash? && |r.value.fields| == 2
    ensures r.Ok? ==> Lookup(r.value.fields, SymKey(TypeName)) == Str("AUTH_REVERSAL")
    ensures r.Ok? ==> Lookup(r.value.fields, SymKey(ReversalIdName(options))) == id
  {
    match IndexBySymbol(options, "using_merchant_id")
    case Raised(e) => Raised(e)
    case Ok(flag) =>
      Ok(Hash([Field(SymKey(TypeName), Str("AUTH_REVERSAL")), Field(SymKey(ReversalIdName(options)), id)]))
  }

  /** The name the reversal carries the id under. */
  function ReversalIdName(options: Value): string
    requires options.Hash?
  {
    if Truthy(Lookup(options.fields, SymKey("using_merchant_id"))) then MerchantIdName else IdName
  }

  /** `auth_reversal(transaction_id, options = {})`: the reversal body goes
      through `update`; the caller's options are not changed. */
  function AuthReversal(id: Value, options: Value, helper: BodyHelper, transport: Request -> Response,
                        parse: string -> Parse): (r: Call<Record>)
    ensures r.data == options && r.result.Raised?
    ensures !options.Hash? ==> r.sent == []
    ensures options.Hash? ==> r.sent == Update(id, ReversalBody(id, options).value, helper, transport, parse).sent
  {
    match ReversalBody(id, options)
    case Raised(e) => Call(options, [], Raised(e))
    case Ok(body) =>
      var c := Update(id, body, helper, transport, parse);
      Call(options, c.sent, c.result)
  }

  /** `find(transaction_id)`: one GET to the endpoint followed by the id's
      text, with the empty options `get` defaults to; there are no caller
      options, which `data` records as `nil`. */
  function Find(id: Value, transport: Request -> Response, parse: string -> Parse): (r: Call<Record>)
    ensures |r.sent| == 1 && r.sent[0].verb == HttpGet && r.sent[0].body == Hash([])
    ensures |r.sent[0].path| == |Endpoint| + 1 + |ToS(id)|
    ensures r.sent[0].path[..|Endpoint|] == Endpoint && r.sent[0].path[|Endpoint|] == '/'
    ensures r.sent[0].path[|Endpoint| + 1..] == ToS(id)
    ensures r.result.Raised?
  {
    var req := Request(HttpGet, Endpoint + "/" + ToS(id), Hash([]));
    Call(Nil, [req], Answer(req, transport, parse))
  }

  /** Two lookups ask for the same path exactly when the ids have the same
      text: the id is the whole tail of the path. */
  lemma FindPathDeterminesId(a: Value, b: Value, transport: Request -> Response, parse: string -> Parse)
    ensures Find(a, transport, parse).sent[0].path == Find(b, transport, parse).sent[0].path <==> ToS(a) == ToS(b)
  {
  }

  /** As written, none of the six methods that send a body sends anything:
      a hash argument always ends in the missing helper. */
  lemma NothingSentAsWritten(id: Value, data: Value, transport: Request -> Response, parse: string -> Parse)
    ensures Create(data, MissingBodyHelper(), transport, parse).sent == []
    ensures AuthCapture(data, MissingBodyHelper(), transport, parse).sent == []
    ensures AuthOnly(data, MissingBodyHelper(), transport, parse).sent == []
    ensures Update(id, data, MissingBodyHelper(), transport, parse).sent == []
    ensures Capture(id, data, MissingBodyHelper(), transport, parse).sent == []
    ensures AuthReversal(id, data, MissingBodyHelper(), transport, parse).sent == []
    ensures data.Hash? ==>
      Create(data, MissingBodyHelper(), transport, parse).result == Raised(NoMethodError("parse_body_for_request")) &&
      Update(id, data, MissingBodyHelper(), transport, parse).result == Raised(NoMethodError("parse_body_for_request"))
  {
  }

  /** With the BlueSnap helper, `create` posts once to the endpoint, and
      the keys sent are the camelized listed keys of the caller's hash,
      the transaction id excepted. */
  lemma CreateSendsListed(fs: seq<Field>, camelize: string -> string, transport: Request -> Response,
                          parse: string -> Parse)
    ensures var r := Create(Hash(fs), OptionsHelper(camelize), transport, parse);
      |r.sent| == 1 && r.sent[0].verb == HttpPost && r.sent[0].path == Endpoint && r.sent[0].body.Hash? &&
      KeysOf(r.sent[0].body.fields) == set k | k in Listed(CreateNames(), fs) :: SymKey(camelize(k.name))
    ensures Listed(CreateNames(), fs) == set k | k in Listed(Attrs, fs) && k.name != IdName
  {
    var body := BluesnapOptions(CreateNames(), Hash(fs), camelize);
    assert OptionsHelper(camelize)(CreateNames(), Hash(fs)) == body && body.Ok?;
    var r := Create(Hash(fs), OptionsHelper(camelize), transport, parse);
    assert r.sent == [Request(HttpPost, Endpoint, body.value)];
    BluesnapOptionsKeys(CreateNames(), fs, camelize);
    ListedWithout(Attrs, fs, IdName);
  }

  /** Where the three names the methods store sit among the attributes. */
  lemma StoredNamesDeclared()
    ensures IdName in Attrs && MerchantIdName in Attrs && TypeName in Attrs
  {
    assert Attrs[0] == IdName && Attrs[7] == MerchantIdName && Attrs[16] == TypeName;
  }

  /** `create` may send the kind and the merchant id, never the id. */
  lemma StoredNamesListed()
    ensures TypeName in CreateNames() && MerchantIdName in CreateNames() && IdName !in CreateNames()
  {
    StoredNamesDeclared();
    assert |TypeName| != |IdName| && |MerchantIdName| != |IdName|;
  }

  /** With the BlueSnap helper, `auth_capture` and `auth_only` post once,
      and the kind they store reaches the selected pairs and the sent
      keys. */
  lemma KindSent(kind: string, fs: seq<Field>, camelize: string -> string, transport: Request -> Response,
                 parse: string -> Parse)
    ensures var r := CreateOfKind(kind, Hash(fs), OptionsHelper(camelize), transport, parse);
      |r.sent| == 1 && r.sent[0].verb == HttpPost && r.sent[0].body.Hash? &&
      SymKey(camelize(TypeName)) in KeysOf(r.sent[0].body.fields) &&
      Lookup(Select(CreateNames(), r.data.fields), SymKey(TypeName)) == Str(kind)
  {
    var stamped := Put(fs, SymKey(TypeName), Str(kind));
    assert IndexAssign(Hash(fs), TypeName, Str(kind)) == Ok(Hash(stamped));
    var r := CreateOfKind(kind, Hash(fs), OptionsHelper(camelize), transport, parse);
    assert r == Create(Hash(stamped), OptionsHelper(camelize), transport, parse);
    TypeListed(kind, fs);
    ListedKeySent(stamped, SymKey(TypeName), camelize, transport, parse);
  }

  /** A listed pair of the caller's hash reaches `create`'s body under its
      camelized name. */
  lemma ListedKeySent(fs: seq<Field>, k: Key, camelize: string -> string, transport: Request -> Response,
                      parse: string -> Parse)
    ensures var r := Create(Hash(fs), OptionsHelper(camelize), transport, parse);
      |r.sent| == 1 && r.sent[0].verb == HttpPost && r.sent[0].body.Hash? &&
      (k in Listed(CreateNames(), fs) ==> SymKey(camelize(k.name)) in KeysOf(r.sent[0].body.fields))
  {
    CreateSendsListed(fs, camelize, transport, parse);
  }

  /** The kind stored under `:type` is a listed pair, and selecting the
      listed pairs keeps it. */
  lemma TypeListed(kind: string, fs: seq<Field>)
    ensures var stamped := Put(fs, SymKey(TypeName), Str(kind));
      SymKey(TypeName) in Listed(CreateNames(), stamped) &&
      Lookup(Select(CreateNames(), stamped), SymKey(TypeName)) == Str(kind)
  {
    var stamped := Put(fs, SymKey(TypeName), Str(kind));
    StoredNamesListed();
    assert SymKey(TypeName) in KeysOf(stamped);
    ListedKey(Attrs, stamped, SymKey(TypeName));
    SelectLookup(CreateNames(), stamped, SymKey(TypeName));
  }

  /** With the BlueSnap helper, `update` puts once to the endpoint, the
      keys sent are the camelized listed keys of the caller's hash, and
      the id it stores is among them. */
  lemma UpdateSendsId(id: Value, fs: seq<Field>, camelize: string -> string, transport: Request -> Response,
                      parse: string -> Parse)
    ensures var r := Update(id, Hash(fs), OptionsHelper(camelize), transport, parse);
      |r.sent| == 1 && r.sent[0].verb == HttpPut && r.sent[0].path == Endpoint && r.sent[0].body.Hash? &&
      r.data == Hash(Put(fs, SymKey(IdName), id)) &&
      KeysOf(r.sent[0].body.fields) == (set k | k in Listed(Attrs, r.data.fields) :: SymKey(camelize(k.name))) &&
      SymKey(camelize(IdName)) in KeysOf(r.sent[0].body.fields) &&
      Lookup(Select(Attrs, r.data.fields), SymKey(IdName)) == id
  {
    var stamped := Put(fs, SymKey(IdName), id);
    assert IndexAssign(Hash(fs), IdName, id) == Ok(Hash(stamped));
    assert OptionsHelper(camelize)(Attrs, Hash(stamped)) == BluesnapOptions(Attrs, Hash(stamped), camelize);
    BluesnapOptionsKeys(Attrs, stamped, camelize);
    StoredNamesDeclared();
    assert SymKey(IdName) in KeysOf(stamped);
    ListedKey(Attrs, stamped, SymKey(IdName));
    SelectLookup(Attrs, stamped, SymKey(IdName));
  }

  /** The keys of the reversal body once `update` has stored the id. */
  lemma ReversalStamped(id: Value, options: Value)
    requires options.Hash?
    ensures var body := ReversalBody(id, options).value;
      var stamped := Put(body.fields, SymKey(IdName), id);
      KeysOf(stamped) == {SymKey(TypeName), SymKey(ReversalIdName(options)), SymKey(IdName)} &&
      Listed(Attrs, stamped) == KeysOf(stamped)
  {
    var name := ReversalIdName(options);
    var before := [Field(SymKey(TypeName), Str("AUTH_REVERSAL")), Field(SymKey(name), id)];
    assert ReversalBody(id, options).value.fields == before;
    assert KeysOf(before) == {SymKey(TypeName), SymKey(name)} by {
      assert before[0].key == SymKey(TypeName) && before[1].key == SymKey(name);
    }
    var stamped := Put(before, SymKey(IdName), id);
    assert KeysOf(stamped) == {SymKey(TypeName), SymKey(name), SymKey(IdName)};
    StoredNamesDeclared();
    forall i | 0 <= i < |stamped| ensures stamped[i].key.name in Attrs {
      assert stamped[i].key in KeysOf(stamped);
    }
    ListedAll(Attrs, stamped);
  }

  /** The camelized image of a three-key set. */
  lemma ImageOfThree(s: set<Key>, a: Key, b: Key, c: Key, camelize: string -> string)
    requires s == {a, b, c}
    ensures (set k | k in s :: SymKey(camelize(k.name))) ==
      {SymKey(camelize(a.name)), SymKey(camelize(b.name)), SymKey(camelize(c.name))}
  {
  }

  /** With the BlueSnap helper, a reversal puts one body whose keys are
      the kind, the chosen id name and `transaction_id`, which `update`
      adds; with `using_merchant_id` falsy the last two coincide. */
  lemma ReversalKeys(id: Value, fs: seq<Field>, camelize: string -> string, transport: Request -> Response,
                     parse: string -> Parse)
    ensures var r := AuthReversal(id, Hash(fs), OptionsHelper(camelize), transport, parse);
      |r.sent| == 1 && r.sent[0].verb == HttpPut && r.sent[0].body.Hash? &&
      KeysOf(r.sent[0].body.fields) ==
        {SymKey(camelize(TypeName)), SymKey(camelize(ReversalIdName(Hash(fs)))), SymKey(camelize(IdName))}
  {
    var body := ReversalBody(id, Hash(fs)).value;
    var r := AuthReversal(id, Hash(fs), OptionsHelper(camelize), transport, parse);
    var c := Update(id, body, OptionsHelper(camelize), transport, parse);
    assert r.sent == c.sent;
    ReversalStamped(id, Hash(fs));
    UpdateSendsId(id, body.fields, camelize, transport, parse);
    var a, b, d := SymKey(TypeName), SymKey(ReversalIdName(Hash(fs))), SymKey(IdName);
    assert Listed(Attrs, c.data.fields) == {a, b, d};
    ImageOfThree(Listed(Attrs, c.data.fields), a, b, d, camelize);
    assert KeysOf(c.sent[0].body.fields) == {SymKey(camelize(a.name)), SymKey(camelize(b.name)), SymKey(camelize(d.name))};
  }
}
