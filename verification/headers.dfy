/** The request each base class's `fetch` sends: the header fields it sets
    and the body. Net::HTTP keeps header fields by lower-cased name;
    assigning a falsy value removes the field, and any other value is stored
    as its `to_s`, which may not contain a carriage return or a line feed.
    The body, `JSON.dump` of the options, is not modelled. */
module Headers {
  import opened Text
  import opened Ruby
  import Utf8
  import Base64

  type Fields = map<string, string>

  const ContentType := "content-type"
  const Accept := "accept"
  const Authorization := "authorization"
  const ClientId := "x-client-id"
  const ApiKey := "x-api-key"
  const Version := "airwallex-version"
  const Json := "application/json"

  /** The class whose requests authenticate with the client id and API key
      instead of a bearer token. */
  const TokenClass := "AirwallexRuby::Model::Token"

  predicate HasLineBreak(s: string) { '\r' in s || '\n' in s }

  lemma LineBreakAppend(a: string, b: string)
    ensures HasLineBreak(a + b) <==> HasLineBreak(a) || HasLineBreak(b)
  {
    if '\r' in a + b || '\n' in a + b {
      var i :| 0 <= i < |a + b| && (a + b)[i] in "\r\n";
      if i < |a| { assert a[i] == (a + b)[i]; } else { assert b[i - |a|] == (a + b)[i]; }
    }
    if HasLineBreak(b) {
      var i :| 0 <= i < |b| && b[i] in "\r\n";
      assert (a + b)[|a| + i] == b[i];
    }
  }

  /** `request[name] = v`. */
  function SetField(h: Fields, name: string, v: Value): (r: Result<Fields>)
    ensures r.Raised? <==> Truthy(v) && HasLineBreak(ToS(v))
    ensures r.Raised? ==> r.fault == HeaderValueError(name)
    ensures r.Ok? ==> (name in r.value <==> Truthy(v)) && (Truthy(v) ==> r.value[name] == ToS(v))
    ensures r.Ok? ==> forall n :: n != name ==> (n in r.value <==> n in h) && (n in h ==> r.value[n] == h[n])
  {
    if !Truthy(v) then Ok(h - {name})
    else if HasLineBreak(ToS(v)) then Raised(HeaderValueError(name))
    else Ok(h[name := ToS(v)])
  }

  /** The two fields every request of every base class carries. */
  const JsonFields: Fields := map[ContentType := Json, Accept := Json]

  predicate JsonContent(h: Fields) {
    ContentType in h && h[ContentType] == Json && Accept in h && h[Accept] == Json
  }

  /** `init_http_header` of the `Model` base: the class `cls` is the
      receiver's name, and the three credentials are the configured
      `access_token`, `client_id` and `api_key`. */
  function ModelFields(cls: string, accessToken: Value, clientId: Value, apiKey: Value): (r: Result<Fields>)
    ensures r.Ok? ==> JsonContent(r.value)
    // every class but the token class authenticates with a bearer token
    // and sends neither client id nor API key
    ensures cls != TokenClass ==> (r.Raised? <==> HasLineBreak(ToS(accessToken)))
    ensures cls != TokenClass && r.Ok? ==>
      Authorization in r.value && r.value[Authorization] == "Bearer " + ToS(accessToken) &&
      ClientId !in r.value && ApiKey !in r.value
    // the token class sends the client id and API key that are set, and
    // no bearer token
    ensures cls == TokenClass ==>
      (r.Raised? <==> (Truthy(clientId) && HasLineBreak(ToS(clientId))) || (Truthy(apiKey) && HasLineBreak(ToS(apiKey))))
    ensures cls == TokenClass && r.Ok? ==>
      Authorization !in r.value &&
      (ClientId in r.value <==> Truthy(clientId)) && (Truthy(clientId) ==> r.value[ClientId] == ToS(clientId)) &&
      (ApiKey in r.value <==> Truthy(apiKey)) && (Truthy(apiKey) ==> r.value[ApiKey] == ToS(apiKey))
  {
    if cls != TokenClass then
      var bearer := "Bearer " + ToS(accessToken);
      LineBreakAppend("Bearer ", ToS(accessToken));
      SetField(JsonFields, Authorization, Str(bearer))
    else
      match SetField(JsonFields, ClientId, clientId)
      case Raised(e) => Raised(e)
      case Ok(h) => SetField(h, ApiKey, apiKey)
  }

  /** `"Basic #{Base64.strict_encode64("#{username}:#{password}")}"`. */
  function BasicAuthorization(username: Value, password: Value): (a: string)
    ensures !HasLineBreak(a)
  {
    var e := Base64.StrictEncode(ToS(username) + ":" + ToS(password));
    assert !HasLineBreak(e) by {
      var bytes := Utf8.Encode(ToS(username) + ":" + ToS(password));
      Base64.EncodeAlphabet(Base64.Standard, bytes);
      forall i | 0 <= i < |e| ensures e[i] != '\r' && e[i] != '\n' {
        if i < |e| - Base64.Padding(|bytes|) {
          assert Base64.IsDigitOf(Base64.Standard, e[i]);
        }
      }
    }
    LineBreakAppend("Basic ", e);
    "Basic " + e
  }

  /** The credentials can be read back from the field: what follows
      `"Basic "` decodes to the UTF-8 text of `username:password`. */
  lemma BasicAuthorizationDecodes(username: Value, password: Value)
    ensures var a := BasicAuthorization(username, password);
      |a| >= 6 && a[..6] == "Basic " &&
      Base64.Decode(Base64.Standard, a[6..]) == Some(Utf8.Encode(ToS(username) + ":" + ToS(password))) &&
      Utf8.Decode(Utf8.Encode(ToS(username) + ":" + ToS(password))) == Some(ToS(username) + ":" + ToS(password))
  {
    var text := ToS(username) + ":" + ToS(password);
    var e := Base64.StrictEncode(text);
    assert BasicAuthorization(username, password)[6..] == e;
    Base64.DecodeEncode(Base64.Standard, Utf8.Encode(text));
    Utf8.DecodeEncode(text);
  }

  /** The fields `fetch` of the Basic-auth Airwallex base sets, from the
      configured `username`, `password` and `version`. */
  function BasicFields(username: Value, password: Value, version: Value): (r: Result<Fields>)
    ensures r.Raised? <==> !Blank(version) && HasLineBreak(ToS(version))
    ensures r.Ok? ==> JsonContent(r.value)
    ensures r.Ok? ==> Authorization in r.value && r.value[Authorization] == BasicAuthorization(username, password)
    // the version field is sent exactly when the version is present, and
    // then holds it
    ensures r.Ok? ==> (Version in r.value <==> !Blank(version))
    ensures r.Ok? && !Blank(version) ==> r.value[Version] == ToS(version)
    ensures r.Ok? ==> ClientId !in r.value && ApiKey !in r.value
  {
    var h := JsonFields[Authorization := BasicAuthorization(username, password)];
    if Blank(version) then Ok(h) else SetField(h, Version, version)
  }

  /** The fields `fetch` of the BlueSnap base sets: Basic authorization
      and the JSON content fields, nothing else. */
  function BluesnapFields(username: Value, password: Value): (r: Fields)
    ensures JsonContent(r)
    ensures Authorization in r && r[Authorization] == BasicAuthorization(username, password)
    ensures r.Keys == {ContentType, Accept, Authorization}
  {
    JsonFields[Authorization := BasicAuthorization(username, password)]
  }
}
