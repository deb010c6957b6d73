/** The BlueSnap `VaultedShopper` resource of
    lib/bluesnap_ruby/vaulted_shopper.rb.

    The code as written has three faults of its own on top of those of the
    BlueSnap `fetch`. `create` and `update` ask for `parse_body_for_request`,
    which the BlueSnap base does not define. Every path is built on
    `Vendor::ENDPOINT` (`/1/recipients`, the vendor resource's endpoint),
    while the class declares its own `ENDPOINT` and never uses it. And the
    class method `delete` calls `delete(request_url)`, which is itself, not
    the base's HTTP `delete`, so it recurses until the stack runs out.
    The functions take the body helper and the path root as parameters, so
    the code as written and the evidently intended calls are both
    instances; deletion has one function for each. */
module VaultedShopper {
  import opened Text
  import opened Ruby
  import opened Inflection
  import opened Registry
  import opened Bodies
  import opened Http
  import BluesnapResponse

  /** The names declared with `attr_accessor`, in order. */
  const Attrs: seq<string> := [
    "vaulted_shopper_id", "payment_sources", "first_name", "last_name", "soft_descriptor",
    "descriptor_phone_number", "merchant_shopper_id", "country", "state", "city", "address",
    "address2", "email", "zip", "phone", "company_name", "shopper_currency",
    "shipping_contact_info", "wallet_id", "transaction_fraud_info", "transaction_order_source",
    "three_d_secure"]

  /** The class's own endpoint, which the intended calls use. */
  const Endpoint := "/services/2/vaulted-shoppers"
  /** `Vendor::ENDPOINT`, which the calls as written use. */
  const VendorEndpoint := "/1/recipients"
  const IdName := "vaulted_shopper_id"
  const MerchantFlag := "using_merchant_id"

  /** The names `create` and `update` may send: all but the shopper id. */
  function CreateNames(): seq<string> {
    Without(Attrs, IdName)
  }

  lemma IdNameDeclared()
    ensures IdName in Attrs && IdName !in CreateNames()
  {
    assert Attrs[0] == IdName;
  }

  /** The id's name is already in snake_case. */
  lemma IdNameSnake()
    ensures Underscore(IdName) == IdName
  {
    assert forall i :: 0 <= i < |IdName| ==> IsLower(IdName[i]) || IdName[i] == '_';
    UnderscoreFixed(IdName);
  }

  /** The path of one shopper under `root`: `root/id`, or
      `root/merchant/id` when the shopper is looked up by the merchant's
      id. The id is interpolated with `to_s` and not escaped. */
  function ShopperPath(root: string, id: Value, byMerchant: bool): (p: string)
    ensures var mid := if byMerchant then "/merchant/" else "/";
      |p| == |root| + |mid| + |ToS(id)| &&
      p[..|root|] == root && p[|root|..|root| + |mid|] == mid && p[|root| + |mid|..] == ToS(id)
  {
    if byMerchant then root + "/merchant/" + ToS(id) else root + "/" + ToS(id)
  }

  /** With the root and the kind of lookup fixed, the path gives the id's
      text back. */
  lemma ShopperPathDeterminesId(root: string, a: Value, b: Value, byMerchant: bool)
    requires ShopperPath(root, a, byMerchant) == ShopperPath(root, b, byMerchant)
    ensures ToS(a) == ToS(b)
  {
  }

  /** Ids are not escaped: an id that starts with `merchant/` gives the same
      path as a lookup by merchant id. */
  lemma MerchantPathAmbiguous(root: string, x: string)
    ensures ShopperPath(root, Str("merchant/" + x), false) == ShopperPath(root, Str(x), true)
  {
  }

  /** `options[:using_merchant_id]` as a condition. Only a hash can be
      indexed by a Symbol. */
  function ByMerchant(options: Value): (r: Result<bool>)
    ensures r.Ok? <==> options.Hash?
    ensures r.Ok? ==> r.value == Truthy(Lookup(options.fields, SymKey(MerchantFlag)))
    ensures r.Raised? ==> r.fault == IndexBySymbol(options, MerchantFlag).fault
  {
    match IndexBySymbol(options, MerchantFlag)
    case Raised(e) => Raised(e)
    case Ok(flag) => Ok(Truthy(flag))
  }

  /** What reading `name` off the value a BlueSnap call returns gives. */
  function Answer<T>(req: Request, transport: Request -> Response, parse: string -> Parse, name: string): (r: Result<T>)
    ensures r.Raised?
    ensures r.fault == BluesnapResponse.ReadBack(transport(req).body, parse, name).fault
  {
    Raised(BluesnapResponse.ReadBack(transport(req).body, parse, name).fault)
  }

  /** `VaultedShopper.create(shopper_data)`: a POST to `root` with the body
      the helper builds from every name but the shopper id, then
      `response.header['location']`, which the unwrapped value does not
      have. Nothing is sent when the helper raises. */
  function Create(data: Value, helper: BodyHelper, root: string, transport: Request -> Response,
                  parse: string -> Parse): (r: Call<Value>)
    ensures r.data == data && r.result.Raised?
    ensures helper(CreateNames(), data).Raised? <==> r.sent == []
    ensures helper(CreateNames(), data).Raised? ==> r.result == Raised(helper(CreateNames(), data).fault)
    ensures helper(CreateNames(), data).Ok? ==>
      r.sent == [Request(HttpPost, root, helper(CreateNames(), data).value)] &&
      r.result == Answer(r.sent[0], transport, parse, "header")
  {
    match helper(CreateNames(), data)
    case Raised(e) => Call(data, [], Raised(e))
    case Ok(body) =>
      var req := Request(HttpPost, root, body);
      Call(data, [req], Answer(req, transport, parse, "header"))
  }

  /** The last element of an array, `nil` for an empty one. */
  function Last(parts: seq<string>): (r: Value)
    ensures |parts| == 0 <==> r == Nil
    ensures |parts| > 0 ==> r == Str(parts[|parts| - 1])
  {
    if |parts| == 0 then Nil else Str(parts[|parts| - 1])
  }

  /** Lines 20 to 23 of `create` read off a transport response: `nil`
      without a `location` header, otherwise the last non-empty-ended part
      of the location split on `/` (`nil` when every part is empty). */
  function LocationId(resp: Response): (r: Value)
    ensures "location" !in resp.header ==> r == Nil
    ensures r != Nil ==> r.Str? && r.s != "" && '/' !in r.s
  {
    match HeaderValue(resp, "location")
    case Str(loc) =>
      var parts := RubySplit(loc, '/');
      if |parts| == 0 then Nil
      else
        SplitOnNoSeparator(loc, '/');
        assert parts[|parts| - 1] in SplitOn(loc, '/');
        Last(parts)
    case _ => Nil
  }

  /** No part of a split holds the separator. */
  lemma {:induction false} SplitOnNoSeparator(s: string, c: char)
    ensures forall p :: p in SplitOn(s, c) ==> c !in p
  {
    if |s| > 0 {
      SplitOnNoSeparator(s[1..], c);
      var rest := SplitOn(s[1..], c);
      if s[0] != c {
        assert rest[0] in rest;
        assert forall p :: p in rest[1..] ==> p in rest;
      }
    }
  }

  /** A location that ends in `/` followed by an id without `/` gives that
      id back, whatever comes before. */
  lemma LocationIdRoundTrip(resp: Response, prefix: string, id: string)
    requires "location" in resp.header && resp.header["location"] == prefix + "/" + id
    requires id != "" && '/' !in id
    ensures LocationId(resp) == Str(id)
  {
    SplitOnAppend(prefix, id, '/');
    SplitOnFree(id, '/');
    var parts := SplitOn(prefix + "/" + id, '/');
    assert parts == SplitOn(prefix, '/') + [id];
    assert RubySplit(prefix + "/" + id, '/') == parts;
  }

  /** A location made only of slashes, or empty, gives `nil`. */
  lemma LocationIdBlank(resp: Response)
    requires "location" in resp.header && forall i :: 0 <= i < |resp.header["location"]| ==> resp.header["location"][i] == '/'
    ensures LocationId(resp) == Nil
  {
    var loc := resp.header["location"];
    OnlySeparators(loc, '/');
  }

  /** Splitting a run of separators gives only empty parts. */
  lemma {:induction false} OnlySeparators(s: string, c: char)
    requires forall i :: 0 <= i < |s| ==> s[i] == c
    ensures forall p :: p in SplitOn(s, c) ==> p == ""
    ensures RubySplit(s, c) == []
  {
    if |s| > 0 {
      OnlySeparators(s[1..], c);
    }
  }

  /** `shopper.update(shopper_data)`: a PUT to the shopper's path with the
      body the helper builds from every name but the shopper id, then
      `response.code`, which the unwrapped value does not have. */
  function Update(rec: Record, data: Value, helper: BodyHelper, root: string, transport: Request -> Response,
                  parse: string -> Parse): (r: Call<bool>)
    ensures r.data == data && r.result.Raised?
    ensures helper(CreateNames(), data).Raised? <==> r.sent == []
    ensures helper(CreateNames(), data).Ok? ==>
      r.sent == [Request(HttpPut, ShopperPath(root, Read(rec, IdName), false), helper(CreateNames(), data).value)] &&
      r.result == Answer(r.sent[0], transport, parse, "code")
  {
    match helper(CreateNames(), data)
    case Raised(e) => Call(data, [], Raised(e))
    case Ok(body) =>
      var req := Request(HttpPut, ShopperPath(root, Read(rec, IdName), false), body);
      Call(data, [req], Answer(req, transport, parse, "code"))
  }

  /** `VaultedShopper.update(vaulted_shopper_id, shopper_data)`: a shopper
      built from the id alone, then its `update`. */
  function UpdateById(id: Value, data: Value, helper: BodyHelper, root: string, transport: Request -> Response,
                      parse: string -> Parse): (r: Call<bool>)
    ensures r.data == data && r.result.Raised?
    ensures Construct(Some(Attrs), Hash([Field(SymKey(IdName), id)])).Ok? ==>
      r == Update(Construct(Some(Attrs), Hash([Field(SymKey(IdName), id)])).value, data, helper, root, transport, parse)
  {
    match Construct(Some(Attrs), Hash([Field(SymKey(IdName), id)]))
    case Raised(e) => Call(data, [], Raised(e))
    case Ok(rec) => Update(rec, data, helper, root, transport, parse)
  }

  /** The shopper `update` builds holds the id it was given, so the PUT
      goes to that shopper's path. */
  lemma UpdateByIdPath(id: Value, data: Value, helper: BodyHelper, root: string, transport: Request -> Response,
                       parse: string -> Parse)
    requires !id.Hash? && !id.Arr?
    ensures helper(CreateNames(), data).Ok? ==>
      var r := UpdateById(id, data, helper, root, transport, parse);
      |r.sent| == 1 && r.sent[0].verb == HttpPut && r.sent[0].path == ShopperPath(root, id, false) &&
      r.sent[0].body == helper(CreateNames(), data).value
  {
    var fs := [Field(SymKey(IdName), id)];
    IdNameDeclared();
    IdNameSnake();
    ConstructLastWins(Attrs, fs, 0);
  }

  /** `VaultedShopper.find(vaulted_shopper_id, options)`: one GET to the
      shopper's path, by merchant id when the options say so. */
  function Find(id: Value, options: Value, root: string, transport: Request -> Response,
                parse: string -> Parse): (r: Call<Record>)
    ensures r.data == options && r.result.Raised?
    ensures !options.Hash? ==> r.sent == [] && r.result == Raised(IndexBySymbol(options, MerchantFlag).fault)
    ensures options.Hash? ==>
      r.sent == [Request(HttpGet, ShopperPath(root, id, ByMerchant(options).value), Hash([]))]
  {
    match ByMerchant(options)
    case Raised(e) => Call(options, [], Raised(e))
    case Ok(m) =>
      var req := Request(HttpGet, ShopperPath(root, id, m), Hash([]));
      Call(options, [req], Answer(req, transport, parse, "body"))
  }

  /** `VaultedShopper.delete(vaulted_shopper_id, options)` as written: the
      call `delete(request_url)` re-enters the same method with the URL as
      the id and no options. Ruby passes the `URI` object, whose full URL
      carries scheme and host; the model passes the path string instead,
      which changes nothing observable: the id only feeds the next path,
      which is never sent. `depth` is the number of calls the Ruby stack
      still has room for. */
  function DeleteAsWritten(id: Value, options: Value, depth: nat): (r: Call<bool>)
    ensures r.data == options && r.sent == [] && r.result.Raised?
    decreases depth
  {
    match ByMerchant(options)
    case Raised(e) => Call(options, [], Raised(e))
    case Ok(m) =>
      if depth == 0 then Call(options, [], Raised(SystemStackError))
      else
        var inner := DeleteAsWritten(Str(ShopperPath(VendorEndpoint, id, m)), Hash([]), depth - 1);
        Call(options, inner.sent, inner.result)
  }

  /** However deep the stack, deleting with a hash of options sends nothing
      and ends in `SystemStackError`. */
  lemma {:induction false} DeleteNeverReturns(id: Value, options: Value, depth: nat)
    requires options.Hash?
    ensures DeleteAsWritten(id, options, depth).result == Raised(SystemStackError)
    decreases depth
  {
    if depth > 0 {
      var m := ByMerchant(options).value;
      DeleteNeverReturns(Str(ShopperPath(VendorEndpoint, id, m)), Hash([]), depth - 1);
    }
  }

  /** The intended `delete`: one DELETE to the shopper's path through the
      base's `delete`, then `response.code`. */
  function Delete(id: Value, options: Value, root: string, transport: Request -> Response,
                  parse: string -> Parse): (r: Call<bool>)
    ensures r.data == options && r.result.Raised?
    ensures !options.Hash? ==> r.sent == [] && r.result == Raised(IndexBySymbol(options, MerchantFlag).fault)
    ensures options.Hash? ==>
      r.sent == [Request(HttpDelete, ShopperPath(root, id, ByMerchant(options).value), Hash([]))] &&
      r.result == Answer(r.sent[0], transport, parse, "code")
  {
    match ByMerchant(options)
    case Raised(e) => Call(options, [], Raised(e))
    case Ok(m) =>
      var req := Request(HttpDelete, ShopperPath(root, id, m), Hash([]));
      Call(options, [req], Answer(req, transport, parse, "code"))
  }

  /** The intended delete addresses the shopper `find` reads, and neither
      changes the options. */
  lemma DeleteMatchesFind(id: Value, options: Value, root: string, transport: Request -> Response,
                          parse: string -> Parse)
    requires options.Hash?
    ensures Delete(id, options, root, transport, parse).sent[0].path ==
            Find(id, options, root, transport, parse).sent[0].path
  {
  }

  /** As written, `create` and both `update`s send nothing. */
  lemma NothingSentAsWritten(id: Value, rec: Record, data: Value, transport: Request -> Response,
                             parse: string -> Parse)
    ensures Create(data, MissingBodyHelper(), VendorEndpoint, transport, parse).sent == []
    ensures Update(rec, data, MissingBodyHelper(), VendorEndpoint, transport, parse).sent == []
    ensures UpdateById(id, data, MissingBodyHelper(), VendorEndpoint, transport, parse).sent == []
    ensures Create(data, MissingBodyHelper(), VendorEndpoint, transport, parse).result ==
            Raised(NoMethodError("parse_body_for_request"))
  {
  }

  /** As written, every path a shopper call builds lies under the vendor
      endpoint, not under the shopper endpoint. */
  lemma PathsAsWritten(id: Value, byMerchant: bool)
    ensures var p := ShopperPath(VendorEndpoint, id, byMerchant);
      p[..|VendorEndpoint|] == VendorEndpoint && !(|p| >= |Endpoint| && p[..|Endpoint|] == Endpoint)
  {
    var p := ShopperPath(VendorEndpoint, id, byMerchant);
    assert p[1] == '1' && Endpoint[1] == 's';
  }

  /** With the BlueSnap helper and the shopper endpoint, `create` posts
      once to that endpoint, the keys sent are the camelized listed keys
      of the caller's hash, and the shopper id is never among the keys
      chosen. */
  lemma CreateSendsListed(fs: seq<Field>, camelize: string -> string, transport: Request -> Response,
                          parse: string -> Parse)
    ensures var r := Create(Hash(fs), OptionsHelper(camelize), Endpoint, transport, parse);
      |r.sent| == 1 && r.sent[0].verb == HttpPost && r.sent[0].path == Endpoint && r.sent[0].body.Hash? &&
      KeysOf(r.sent[0].body.fields) == set k | k in Listed(CreateNames(), fs) :: SymKey(camelize(k.name))
    ensures SymKey(IdName) !in Listed(CreateNames(), fs) && StrKey(IdName) !in Listed(CreateNames(), fs)
  {
    var body := BluesnapOptions(CreateNames(), Hash(fs), camelize);
    assert OptionsHelper(camelize)(CreateNames(), Hash(fs)) == body && body.Ok?;
    BluesnapOptionsKeys(CreateNames(), fs, camelize);
    IdNameDeclared();
  }

  /** With the BlueSnap helper and the shopper endpoint, the class
      `update` puts once to the shopper's path with the same body
      `create` would post. */
  lemma UpdateSendsListed(id: Value, fs: seq<Field>, camelize: string -> string, transport: Request -> Response,
                          parse: string -> Parse)
    requires !id.Hash? && !id.Arr?
    ensures var r := UpdateById(id, Hash(fs), OptionsHelper(camelize), Endpoint, transport, parse);
      |r.sent| == 1 && r.sent[0].verb == HttpPut && r.sent[0].path == ShopperPath(Endpoint, id, false) &&
      r.sent[0].body == Create(Hash(fs), OptionsHelper(camelize), Endpoint, transport, parse).sent[0].body
  {
    var body := BluesnapOptions(CreateNames(), Hash(fs), camelize);
    assert OptionsHelper(camelize)(CreateNames(), Hash(fs)) == body && body.Ok?;
    UpdateByIdPath(id, Hash(fs), OptionsHelper(camelize), Endpoint, transport, parse);
  }
}
