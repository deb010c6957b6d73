# Airwallex and BlueSnap Ruby clients, modelled in Dafny

This project models the core of a Ruby gem that wraps two payment REST APIs,
Airwallex and BlueSnap. What it covers:

- **The resource bases.** There is one Bearer-token base for the Airwallex
  models, one Basic-auth base for the Airwallex reports and one Basic-auth
  base for BlueSnap. For these bases this project covers:
  - the class-level attribute registry (`attr_accessor`, `attributes`);
  - construction from a hash (`new(options)`);
  - the request body filters (`parse_body_for_request` and
    `parse_options_for_request`);
  - the deep key-case transforms (`deep_snake_case_keys` and
    `deep_camelize_keys`);
  - the request headers;
  - the way `fetch` classifies the answer of the transport.
- **The helpers.** `String#underscore` and the PKCE verifier and challenge
  generators.
- **The configuration.** The module-level API URL setters, and the Airwallex
  client settings with the URLs built from the server table.
- **The resources.** The two report classes, the BlueSnap error class, the
  BlueSnap `Transaction` and `VaultedShopper` resources, and the Airwallex
  `FinancialReport` and `PaymentIntent` models.

Ruby values are modelled as one datatype, `Ruby.Value`. Its kinds are `nil`,
booleans, integers, Strings, Symbols, arrays, and hashes held as ordered
key/value sequences. A Ruby exception is `Ruby.Result.Raised(fault)`.
The things a call depends on are passed in as function parameters:

- the transport (`Net::HTTP`);
- the JSON parser;
- ActiveSupport's `camelize`;
- SHA-256;
- the random draws.

Every resource operation returns a `Call`. A `Call` holds three things: the
data hash as the operation leaves it (the source mutates the caller's hash),
the requests put on the wire, and the result.

The gem as written cannot complete a single resource call. The model follows
the code, so each resource has two versions:

- **As written.** The body helper that the code calls, `parse_body_for_request`,
  does not exist on the BlueSnap base. The as-written members pass
  `MissingBodyHelper()` as the helper and the endpoint that the code uses as
  the path root.
- **Corrected.** The members pass `OptionsHelper(camelize)` (the base's
  `parse_options_for_request`) and the class's own endpoint. These versions
  state what the calls would send.

The BlueSnap `fetch` (lib/bluesnap_ruby/base.rb:61-72) is modelled as written:

- `Error::InvalidResponse` is not defined by the BlueSnap error class;
- `Error.create` is called with three arguments but takes at most two;
- `parse_object_tokens` is defined nowhere.

So apart from an empty `response` array, every BlueSnap answer raises. Even
that array has no `body`, `header` or `code` for the resources to read. See
`BluesnapResponse.Classify` and `BluesnapResponse.ReadBack`.

Where the written specification of the gem and the code disagree, the model
follows the code:

- **Non-object bodies.** The specification says an array body is accepted and
  only a scalar body is refused. The Airwallex `fetch`
  (lib/airwallex_ruby/models/base.rb:87 and lib/airwallex_ruby/base.rb:73)
  raises for every body that does not parse to a Hash, arrays included. It
  raises `Error.new(response_body)`: `JSON.parse` accepts the body, so the
  `Error::InvalidResponse` rescue is not reached, and the Hash check fails.
- **Successful answers.** The specification says these are transcoded back
  to snake case and returned. The code returns the transport response
  unchanged.
- **Blank bodies.** The specification describes a shortcut for blank or raw
  responses on both APIs. Only the Airwallex `fetch` has one. The BlueSnap
  `fetch` parses every body.

## Model

| member | source | states |
|---|---|---|
| Text.Downcase | lib/airwallex_ruby/helpers.rb:10 | `downcase` maps an ASCII capital to its lower-case letter and leaves every other character alone; no capital survives |
| Text.DowncaseAll | lib/airwallex_ruby/helpers.rb:10 | `downcase` on a string keeps its length and lower-cases it character by character |
| Text.SplitJoin | lib/bluesnap_ruby/vaulted_shopper.rb:23 | `split` on a separator that none of the parts contains gives the parts back from their join |
| Text.SplitOnSeparated | lib/bluesnap_ruby/vaulted_shopper.rb:23 | text up to the first separator is the first field of `split`, and splitting resumes after it |
| Text.DropTrailingEmpty | lib/bluesnap_ruby/vaulted_shopper.rb:23 | Ruby's `split` drops trailing empty fields only: the result is a prefix, ends in a non-empty field, and everything dropped is empty |
| Ruby.Put | lib/bluesnap_ruby/transaction.rb:31 | `hash[k] = v`: the key set gains `k`, `k` maps to `v`, every other key keeps its value, and at most one pair is added |
| Ruby.PutNew | lib/bluesnap_ruby/transaction.rb:50 | assigning a key that is absent appends the pair at the end (hashes keep insertion order) |
| Ruby.PutUnique | lib/bluesnap_ruby/transaction.rb:50 | assignment keeps the keys of a hash distinct |
| Ruby.Collapse | lib/airwallex_ruby/models/base.rb:109 | rebuilding a hash from pairs whose keys may repeat gives distinct keys, the same key set and no more pairs |
| Ruby.CollapseLastWins | lib/airwallex_ruby/models/base.rb:109 | in the rebuilt hash, a repeated key holds the value of its last pair |
| Ruby.CollapseUnique | lib/airwallex_ruby/models/base.rb:109 | pairs with distinct keys are rebuilt unchanged, order included |
| Ruby.PutSymbolAfterStrings | lib/airwallex_ruby/report.rb:48-50 | on a parsed body, whose keys are Strings, a Symbol-key assignment appends a new pair rather than overwriting the String key |
| Ruby.IndexBySymbol | lib/bluesnap_ruby/transaction.rb:77 | `options[:name]` looks the Symbol up in a hash, raises `NoMethodError` on `nil`, `true` and `false`, and raises `TypeError` on any other receiver |
| Ruby.IndexAssign | lib/bluesnap_ruby/transaction.rb:31 | `data[:name] = x` stores `x` under the Symbol in a hash and changes nothing else there; on an array or String it raises `TypeError`, and on anything else `NoMethodError` |
| Http.ThreeArgumentCall | lib/airwallex_ruby/models/base.rb:34-48 | the `Model` verbs take a URL and at most a body, so a call with a third argument raises `ArgumentError` and sends nothing; an error building the body comes first |
| Http.HeaderValue | lib/airwallex_ruby/report.rb:48-50 | `response.header['name']` is the field text when the field is present, and `nil` otherwise |
| Inflection.ColonsToSlashes | lib/airwallex_ruby/helpers.rb:6 | the `::` substitution gives an empty result exactly for the empty string |
| Inflection.ColonsToSlashesNoDoubleColon | lib/airwallex_ruby/helpers.rb:6 | no `::` remains after the first substitution |
| Inflection.ColonsToSlashesAround | lib/airwallex_ruby/helpers.rb:6 | a `::` between two parts becomes `/`, and the parts are rewritten independently |
| Inflection.ColonsToSlashesFixed | lib/airwallex_ruby/helpers.rb:6 | text without `::` passes through the first substitution unchanged |
| Inflection.SplitAcronymExample | lib/airwallex_ruby/helpers.rb:7 | the acronym rule turns `APIKey` into `API_Key` |
| Inflection.SplitAcronymNoDoubleColon | lib/airwallex_ruby/helpers.rb:7 | the acronym rule introduces no `::` |
| Inflection.SplitAcronymFixed | lib/airwallex_ruby/helpers.rb:7 | the acronym rule leaves text without capitals alone |
| Inflection.SplitCamelExample | lib/airwallex_ruby/helpers.rb:8 | the camel rule turns `userId` into `user_Id` |
| Inflection.SplitCamelNoDoubleColon | lib/airwallex_ruby/helpers.rb:8 | the camel rule introduces no `::` |
| Inflection.SplitCamelFixed | lib/airwallex_ruby/helpers.rb:8 | the camel rule leaves text without capitals alone |
| Inflection.DashesToUnderscores | lib/airwallex_ruby/helpers.rb:9 | `tr("-", "_")` keeps the length, turns each `-` into `_` and changes nothing else |
| Inflection.SquashSplitAcronym | lib/airwallex_ruby/helpers.rb:7 | the acronym rule only inserts underscores: with separators dropped and case folded, the text is the same |
| Inflection.SquashSplitCamel | lib/airwallex_ruby/helpers.rb:8 | the camel rule only inserts underscores |
| Inflection.SquashDashes | lib/airwallex_ruby/helpers.rb:9 | `tr` only exchanges one separator for another |
| Inflection.SquashDowncase | lib/airwallex_ruby/helpers.rb:10 | `downcase` only changes case |
| Inflection.UnderscoreIsSnake | lib/airwallex_ruby/helpers.rb:5-11 | `underscore` leaves no capital, no `-` and no `::` |
| Inflection.UnderscoreFixed | lib/airwallex_ruby/helpers.rb:5-11 | a name that is already snake case comes back unchanged |
| Inflection.UnderscoreIdempotent | lib/airwallex_ruby/helpers.rb:5-11 | underscoring twice is underscoring once |
| Inflection.UnderscoreOnlySeparates | lib/airwallex_ruby/helpers.rb:5-11 | after the `::` substitution, `underscore` only inserts or exchanges separators and folds case: no letter or digit is added, lost or moved |
| KeyCase.TransformSucceeds | lib/airwallex_ruby/models/base.rb:109 | `deep_transform_keys!` succeeds exactly when the block accepts every key at every depth |
| KeyCase.TransformEstablishes | lib/airwallex_ruby/models/base.rb:109 | whatever the block guarantees of the keys it returns holds of every key of the result, and the keys of each hash in the result are distinct |
| KeyCase.TransformIdentity | lib/airwallex_ruby/models/base.rb:109 | when the block returns every key unchanged and keys are distinct, the value comes back unchanged |
| KeyCase.TransformKeysImage | lib/airwallex_ruby/models/base.rb:109 | the top-level keys of the result are exactly the block's images of the input's keys |
| KeyCase.DeepSnakeCaseKeys | lib/airwallex_ruby/models/base.rb:104-110 | anything but a non-empty hash comes back as it is; otherwise every key at every depth is a snake-case Symbol, keys are distinct, and the top-level keys are exactly the underscored input keys |
| KeyCase.DeepSnakeCaseKeysIdempotent | lib/airwallex_ruby/models/base.rb:104-110 | snake-casing the keys twice is snake-casing them once |
| KeyCase.SnakeLookupLast | lib/airwallex_ruby/models/base.rb:104-110 | when several keys underscore to the same name, the last of them provides the value |
| KeyCase.SnakePairs | lib/airwallex_ruby/models/base.rb:104-110 | the result is the pairwise image of the input, key by key, rebuilt as a hash; scalar values are kept |
| KeyCase.LowerFirst | lib/airwallex_ruby/models/base.rb:119 | `temp[0] = temp[0].downcase` lower-cases the first character and keeps the rest |
| KeyCase.DeepCamelizeKeys | lib/airwallex_ruby/models/base.rb:112-122 | anything but a non-empty hash comes back as it is; the call raises `NoMethodError` for `downcase` exactly when some key camelizes to the empty string; otherwise every key is a lower-initial Symbol, keys are distinct, and the top-level keys are the lowered camelized input keys |
| KeyCase.RaisesDowncase | lib/airwallex_ruby/models/base.rb:119 | the only exception the lower-camel transform can raise is the `downcase` on `nil` |
| KeyCase.DeepCamelizeKeysPascal | lib/bluesnap_ruby/base.rb:83-89 | the BlueSnap variant does not lower the first letter: its top-level keys are exactly the camelized input keys, all Symbols, distinct |
| Registry.AttrAccessor | lib/airwallex_ruby/models/base.rb:20-24 | `attr_accessor` appends the names to the class's list in the order given, creating the list if absent, and leaves every other class alone |
| Registry.AttrAccessorConcat | lib/airwallex_ruby/models/base.rb:20-24 | two declarations are one declaration of both lists in order |
| Registry.Construct | lib/airwallex_ruby/models/base.rb:8-16 | `new` with something other than a hash or array raises `NoMethodError` for `each`, and an empty hash gives an empty record |
| Registry.ConstructKeyWithoutToSym | lib/airwallex_ruby/models/base.rb:8-11 | an array entry that is neither a pair nor a String or Symbol raises `NoMethodError` for `to_sym` whatever the attribute list, `nil` included, since the key is converted before `include?` is sent |
| Registry.ConstructFromHash | lib/airwallex_ruby/models/base.rb:8-16 | for a non-empty hash, `new` raises (`include?` on `nil`) exactly when the class declared no attributes; otherwise the record holds exactly the declared names found among the snake-cased keys, each with its value there |
| Registry.AssignSymbols | lib/airwallex_ruby/models/base.rb:9-11 | the assignment loop over distinct Symbol keys sets exactly the declared names, each to the value under its key |
| Registry.ConstructLastWins | lib/airwallex_ruby/models/base.rb:8-16 | a declared snake-case name gets the value of the last key that underscores to it |
| Registry.UpperCaseNameNeverAssigned | lib/bluesnap_ruby/base.rb:8-12 | a declared name containing a capital (BlueSnap declares camel-case names) is never assigned from a hash, because keys are snake-cased first |
| Registry.Select | lib/airwallex_ruby/models/base.rb:130 | `select` keeps exactly the pairs whose key text is declared, drawn from the input |
| Registry.SelectLookup | lib/airwallex_ruby/models/base.rb:130 | a declared key keeps its value through the filter |
| Registry.SelectAppend | lib/airwallex_ruby/models/base.rb:130 | the filter works pair by pair and keeps the order |
| Registry.SelectAll | lib/airwallex_ruby/models/base.rb:130 | when every key is declared, nothing is dropped |
| Registry.SelectIdempotent | lib/airwallex_ruby/models/base.rb:130 | filtering twice is filtering once |
| Registry.Without | lib/bluesnap_ruby/transaction.rb:18 | `attributes - [:name]` keeps exactly the names other than the one removed |
| Bodies.SelectOptions | lib/airwallex_ruby/models/base.rb:129-130 | the filter on a hash keeps the declared pairs; on an array it keeps the elements whose first entry names a declared attribute; anything else raises `NoMethodError` for `select` |
| Bodies.SelectItems | lib/airwallex_ruby/models/base.rb:130 | an array element is kept exactly when its first entry names a declared attribute |
| Bodies.ListedKeys | lib/airwallex_ruby/models/base.rb:130 | the keys that survive the filter are exactly the declared keys of the input |
| Bodies.ModelBody | lib/airwallex_ruby/models/base.rb:128-132 | the Bearer-token body helper raises only for non-collections; a hash gives a hash whose keys, at every depth, are distinct snake-case Symbols |
| Bodies.ModelBodyKeys | lib/airwallex_ruby/models/base.rb:128-132 | the body's keys are exactly the underscored Symbols of the declared keys present |
| Bodies.ModelBodyIdempotent | lib/airwallex_ruby/models/base.rb:128-132 | with snake-case declarations, filtering a body again changes nothing |
| Bodies.SnakeNamesKept | lib/airwallex_ruby/models/base.rb:128-132 | with snake-case declarations, `:n` is a body key exactly when `n` is declared and the input has `:n` or `"n"` |
| Bodies.ModelBodySymbols | lib/airwallex_ruby/models/base.rb:131 | every key of the body is a Symbol |
| Bodies.BasicBody | lib/airwallex_ruby/base.rb:114-118 | the Basic-auth body helper raises exactly when a declared key camelizes to empty; otherwise its keys are lower-initial Symbols |
| Bodies.BasicBodyKeys | lib/airwallex_ruby/base.rb:114-118 | its keys are exactly the lowered camelized declared keys present |
| Bodies.BluesnapOptions | lib/bluesnap_ruby/base.rb:95-99 | the BlueSnap helper raises only for non-collections; a hash gives a hash with distinct Symbol keys |
| Bodies.BluesnapOptionsKeys | lib/bluesnap_ruby/base.rb:95-99 | its keys are exactly the camelized declared keys present |
| Bodies.ListedWithout | lib/bluesnap_ruby/transaction.rb:18-19 | filtering against the list minus one name keeps exactly the declared keys with other names |
| Bodies.UnlistedNeverSent | lib/bluesnap_ruby/base.rb:97 | a key whose name is not declared never passes the filter, as a Symbol or as a String |
| Bodies.ListedKey | lib/bluesnap_ruby/base.rb:97 | a key present in the input whose name is declared passes the filter |
| Headers.SetField | lib/airwallex_ruby/models/base.rb:51-60 | `request['Name'] = v` stores `v.to_s`, removes the field for `nil` or `false`, raises for a value with a line break, and leaves every other field alone |
| Headers.ModelFields | lib/airwallex_ruby/models/base.rb:50-63 | every class but the token class sends JSON content and `Bearer <token>` without client id or API key; the token class sends the client id and API key that are set and no bearer token |
| Headers.BasicAuthorization | lib/airwallex_ruby/base.rb:56-57 | the Basic credential has no line break (strict Base64) |
| Headers.BasicAuthorizationDecodes | lib/airwallex_ruby/base.rb:56-57 | the credential is `Basic ` followed by Base64 that decodes to the UTF-8 bytes of `username:password` |
| Headers.BasicFields | lib/airwallex_ruby/base.rb:56-60 | the Basic-auth headers carry JSON content and the Basic credential, and carry the version exactly when it is present |
| Headers.BluesnapFields | lib/bluesnap_ruby/base.rb:53-56 | the BlueSnap headers are exactly content type, accept and the Basic credential |
| AirwallexResponse.ArrayDescription | lib/airwallex_ruby/models/base.rb:89-94 | an array message is reported by the `description` of its first element when that is a hash, otherwise by its `to_s` (empty for an empty array) |
| AirwallexResponse.Classify | lib/airwallex_ruby/models/base.rb:79-101 | the response passes exactly when the body is blank or parses to a hash without a truthy `message`; only an unparsable non-blank body is an invalid response; a non-hash is an error; a truthy message is a remote error |
| AirwallexResponse.BlankNeverParsed | lib/airwallex_ruby/models/base.rb:79 | a blank body passes without being parsed, whatever the parser |
| AirwallexResponse.ObjectMessageUsesToS | lib/airwallex_ruby/models/base.rb:96-99 | a hash message is reported with its `to_s` |
| AirwallexResponse.ArrayMessageExample | lib/airwallex_ruby/models/base.rb:89-94 | a message array of error objects reports the first description |
| AirwallexResponse.StringMessageExample | lib/airwallex_ruby/models/base.rb:96-99 | a String message is reported as it is, with the parsed body |
| AirwallexResponse.SuccessExample | lib/airwallex_ruby/models/base.rb:101 | an object without a message passes |
| AirwallexResponse.SymbolMessageIgnored | lib/airwallex_ruby/models/base.rb:89 | the lookup uses the String key, so a Symbol `:message` does not count |
| BluesnapResponse.Index | lib/bluesnap_ruby/base.rb:67 | `v['name']` on what `JSON.parse` returns: lookup on a hash, substring test on a String, `TypeError` on arrays and integers, `NoMethodError` on `nil` and booleans |
| BluesnapResponse.Unwrap | lib/bluesnap_ruby/base.rb:71-72 | only an empty `response` array survives unwrapping, because `parse_object_tokens` is undefined |
| BluesnapResponse.Classify | lib/bluesnap_ruby/base.rb:61-72 | no body or an unparsable body raises; a truthy `error` raises `ArgumentError` from the three-argument `create`; the only success is an error-free object whose `response` is an empty array |
| BluesnapResponse.BlankBodyIsParsed | lib/bluesnap_ruby/base.rb:61-65 | there is no blank shortcut: a parser that refuses the empty body makes the call fail |
| BluesnapResponse.StringMentioningError | lib/bluesnap_ruby/base.rb:67-69 | a String body containing `error` takes the error path, because `String#[]` finds the text |
| BluesnapResponse.ReadBack | lib/bluesnap_ruby/transaction.rb:21-22 | reading `body`, `header` or `code` from what the BlueSnap verbs return always raises |
| BluesnapError.Create | lib/bluesnap_ruby/error.rb:6-15 | `Error.create` accepts one or two arguments, keeps the first as the error and the second (or `nil`) as the body, and otherwise raises `ArgumentError` with the count |
| BluesnapError.FullMessage | lib/bluesnap_ruby/error.rb:21-23 | the full message is the message, a space, and the body's `to_s` |
| BluesnapError.FullMessageWithoutBody | lib/bluesnap_ruby/error.rb:12-23 | an error created without a body has a full message ending in a bare space |
| BluesnapError.CreateWithThreeArguments | lib/bluesnap_ruby/base.rb:68 | the call in the BlueSnap `fetch`, with three arguments, raises `ArgumentError` |
| Config.AirwallexApiUrl | lib/airwallex_ruby.rb:21-25 | the stored URL always contains `https://`; a URL mentioning it anywhere is stored as given, and any other is prefixed with it |
| Config.AirwallexApiUrlIdempotent | lib/airwallex_ruby.rb:21-25 | setting the stored URL again changes nothing |
| Config.AirwallexNilUrl | lib/airwallex_ruby.rb:22-24 | assigning `nil` stores the bare scheme |
| Config.AirwallexSchemeAnywhere | lib/airwallex_ruby.rb:23 | the scheme test is a substring test, so `https://` in the middle also counts |
| Config.BluesnapApiUrl | lib/bluesnap_ruby.rb:12-15 | a String URL is stored with the scheme ensured; `nil`, booleans, integers and Symbols raise `NoMethodError` for `include?` |
| Config.BluesnapApiUrlIdempotent | lib/bluesnap_ruby.rb:12-15 | setting the stored URL again changes nothing |
| Config.SettersAgreeOnText | lib/bluesnap_ruby.rb:12-15 | on Strings the two setters store the same URL |
| Config.SchemeKept | lib/airwallex_ruby.rb:23 | a URL that starts with the scheme is stored unchanged by both setters |
| Config.DefaultsAreNormal | lib/airwallex_ruby.rb:12 | the default URLs are fixed points of their setters |
| Client.Assign | lib/airwallex_ruby/client.rb:8-46 | a setter stores its value as given and changes no other setting |
| Client.AssignOverwrites | lib/airwallex_ruby/client.rb:8-46 | the second write to a setting wins |
| Client.AssignCommutes | lib/airwallex_ruby/client.rb:8-46 | writes to different settings commute |
| Client.ServerFor | lib/airwallex_ruby/servers.rb:2-11 | the server table answers exactly for `:production` and `:sandbox`, with HTTPS URLs |
| Client.ApiServerUrl | lib/airwallex_ruby/client.rb:48-50 | the API server URL exists exactly for a known environment; otherwise `NoMethodError` |
| Client.FileServerUrl | lib/airwallex_ruby/client.rb:52-54 | the file server URL exists exactly for a known environment |
| Client.Versioned | lib/airwallex_ruby/client.rb:56-58 | a versioned URL is the server URL, a slash, and the version's `to_s` |
| Client.SimulationApiUrl | lib/airwallex_ruby/client.rb:60-62 | the simulation URL is the API URL followed by `/simulation` |
| Client.UrlsAgree | lib/airwallex_ruby/client.rb:48-66 | the URLs exist exactly for a known environment, use HTTPS, and end in the same version |
| Client.ApiUrlDeterminesEnvironment | lib/airwallex_ruby/client.rb:56-58 | equal API URLs mean equal environments |
| Client.FileUrlDeterminesEnvironment | lib/airwallex_ruby/client.rb:64-66 | equal file URLs mean equal environments |
| Client.CredentialsDoNotMove | lib/airwallex_ruby/client.rb:48-66 | the client id, API key and token play no part in any URL |
| Client.DefaultUrls | lib/airwallex_ruby/client.rb:2-6 | out of the box the client talks to the sandbox, version `v1` |
| Client.StringEnvironmentFails | lib/airwallex_ruby/client.rb:48-50 | a String environment, even `"production"`, finds no server |
| Utf8.EncodeChar | lib/airwallex_ruby/base.rb:56 | a character is one to four bytes: one byte exactly for ASCII, otherwise a lead byte and continuation bytes |
| Utf8.EncodeAscii | lib/airwallex_ruby/base.rb:56 | ASCII text encodes byte for byte |
| Utf8.EncodeAppend | lib/airwallex_ruby/base.rb:56 | encoding distributes over concatenation |
| Utf8.DecodeEncode | lib/airwallex_ruby/base.rb:56 | decoding the encoding of any string gives the string back |
| Base64.DigitValueOfDigit | lib/airwallex_ruby/base.rb:56 | each six-bit value has a digit that decodes to it, in both alphabets |
| Base64.Encode | lib/airwallex_ruby/base.rb:56 | the encoding has four characters per started group of three bytes |
| Base64.DecodeEncode | lib/airwallex_ruby/base.rb:56 | decoding an encoding gives the bytes back, in both alphabets |
| Base64.EncodeAlphabet | lib/airwallex_ruby/helpers.rb:46 | an encoding is alphabet digits followed by exactly as much `=` padding as the length calls for |
| Base64.DeletePadding | lib/airwallex_ruby/helpers.rb:46 | `delete('=')` leaves no `=` |
| Base64.DeletePaddingFree | lib/airwallex_ruby/helpers.rb:46 | text without `=` is unchanged by `delete('=')` |
| Base64.UnpaddedEncoding | lib/airwallex_ruby/helpers.rb:46 | removing the padding leaves the digits only, and adding the padding back restores the encoding |
| Percent.EncodeByte | lib/airwallex_ruby/report.rb:44 | `url_encode` keeps an unreserved ASCII byte and writes any other as `%` and two hex digits |
| Percent.EncodeBytesEmits | lib/airwallex_ruby/report.rb:44 | an encoding contains only unreserved characters and `%` |
| Percent.UrlEncodeSafe | lib/airwallex_ruby/report.rb:44 | an encoded value never contains `&` or `=`, so it cannot break the query |
| Percent.DecodeEncodeBytes | lib/airwallex_ruby/report.rb:44 | percent-decoding an encoding gives the bytes back |
| Percent.UrlEncodeRoundTrip | lib/airwallex_ruby/report.rb:44 | a value encoded with `url_encode` decodes to its UTF-8 bytes, and those to the value |
| Percent.UrlEncodeUnreserved | lib/airwallex_ruby/report.rb:44 | text of unreserved characters is not changed |
| Pkce.UnreservedCharsExact | lib/airwallex_ruby/helpers.rb:20 | the character table has 66 entries, is exactly the unreserved set, and has no duplicate |
| Pkce.CodeVerifier | lib/airwallex_ruby/helpers.rb:38-42 | a verifier has 43 to 128 characters, as drawn, each the table entry of its draw |
| Pkce.CodeVerifierReachesAll | lib/airwallex_ruby/helpers.rb:38-42 | every unreserved string of 43 to 128 characters is produced by some draws |
| Pkce.Challenge | lib/airwallex_ruby/helpers.rb:46 | a challenge has no `=` and uses the URL-safe alphabet only |
| Pkce.ChallengeOfDigest | lib/airwallex_ruby/helpers.rb:46 | a 32-byte digest gives 43 characters, and the challenge with its padding restored decodes to the digest |
| Pkce.CodeChallenge | lib/airwallex_ruby/helpers.rb:44-47 | the challenge of a generated verifier decodes, with the padding restored, to the SHA-256 of the verifier's bytes |
| Reports.PathInjective | lib/bluesnap_ruby/report.rb:40-42 | different report codes never share a path |
| Reports.Params | lib/bluesnap_ruby/report.rb:44 | one `key=value` text per option, in order |
| Reports.Query | lib/bluesnap_ruby/report.rb:44 | the query is built for hashes and arrays and is empty for no options; anything else raises `NoMethodError` for `map` |
| Reports.QueryParses | lib/bluesnap_ruby/report.rb:44-45 | when no key contains `&` or `=`, splitting the query on `&` and `=` recovers each key and its encoded value, which decodes back to the value text |
| Reports.KindOf | lib/bluesnap_ruby/report.rb:56-220 | a code recognised as a named report is that report's code |
| Reports.KindOfCode | lib/bluesnap_ruby/report.rb:56-220 | every named report wrapper's code is recognised as that report |
| Reports.WrapperPathsDistinct | lib/bluesnap_ruby/report.rb:56-220 | the named report wrappers request pairwise different paths |
| Reports.WithPaging | lib/airwallex_ruby/report.rb:48-50 | the paging headers are stored in the body, `total_row_count` holding its header value or `nil` |
| Reports.PagingAppended | lib/airwallex_ruby/report.rb:48-50 | on a String-keyed body the three paging pairs are appended at the end, in the order of the source |
| Reports.AirwallexReportFrom | lib/airwallex_ruby/report.rb:46-51 | a report is built exactly when `fetch` passes and the body parses to an object; a refusal carries `fetch`'s outcome; no body passes `fetch` and then fails the second parse; the record holds declared attributes only |
| Reports.AirwallexReport | lib/airwallex_ruby/report.rb:39-52 | options that cannot be mapped raise before any request; otherwise the request goes to the report's path with the built query |
| Reports.AirwallexAccountBalance | lib/airwallex_ruby/report.rb:59-61 | the account balance report is the generic report under the same code as the BlueSnap `AccountBalance` wrapper |
| Reports.PagingFromHeaders | lib/airwallex_ruby/report.rb:48-51 | a built report holds the three paging header values, `nil` for a missing header |
| Reports.PagingWins | lib/airwallex_ruby/report.rb:48-51 | the header values win over anything the body says under the same names |
| Reports.BluesnapReport | lib/bluesnap_ruby/report.rb:39-49 | the BlueSnap report always raises: options that cannot be mapped fail first, and otherwise reading the body of `get`'s value fails |
| Transaction.Answer | lib/bluesnap_ruby/transaction.rb:21-23 | reading `response.body` after a BlueSnap call always raises, with the fault of `ReadBack` |
| Transaction.Create | lib/bluesnap_ruby/transaction.rb:17-24 | create sends one POST to the endpoint with the helper's body, or nothing when the helper raises; the data is left as given |
| Transaction.CreateOfKind | lib/bluesnap_ruby/transaction.rb:30-42 | `auth_capture` and `auth_only` stamp the transaction type into the data hash and change nothing else there; a non-hash raises before anything is sent |
| Transaction.Update | lib/bluesnap_ruby/transaction.rb:49-58 | update stamps the id into the data and sends one PUT to the endpoint with the helper's body, or nothing when the helper raises |
| Transaction.Capture | lib/bluesnap_ruby/transaction.rb:65-68 | capture stamps type `CAPTURE` and the id into the data |
| Transaction.ReversalBody | lib/bluesnap_ruby/transaction.rb:76-82 | the reversal body holds exactly the type `AUTH_REVERSAL` and the id, under the merchant key when `using_merchant_id` is set |
| Transaction.AuthReversal | lib/bluesnap_ruby/transaction.rb:76-85 | a reversal sends what update sends for its body, and nothing when the options are not a hash |
| Transaction.FindPathDeterminesId | lib/bluesnap_ruby/transaction.rb:91-99 | two lookups ask for the same path exactly when the ids have the same text |
| Transaction.Find | lib/bluesnap_ruby/transaction.rb:91-99 | find sends one GET to the endpoint, a slash and the id's `to_s`, and the answer cannot be read |
| Transaction.NothingSentAsWritten | lib/bluesnap_ruby/transaction.rb:17-85 | with the helper the code calls, no transaction operation puts anything on the wire |
| Transaction.CreateSendsListed | lib/bluesnap_ruby/transaction.rb:17-21 | with the corrected helper, create sends exactly the camelized declared keys other than the id |
| Transaction.StoredNamesDeclared | lib/bluesnap_ruby/transaction.rb:3-9 | the id, merchant id and type names are declared attributes |
| Transaction.StoredNamesListed | lib/bluesnap_ruby/transaction.rb:18 | create's list keeps the type and merchant id and drops the id |
| Transaction.KindSent | lib/bluesnap_ruby/transaction.rb:30-42 | with the corrected helper, the stamped type is part of the body sent |
| Transaction.TypeListed | lib/bluesnap_ruby/transaction.rb:31 | after stamping, the type key passes create's filter with the stamped value |
| Transaction.ListedKeySent | lib/bluesnap_ruby/transaction.rb:18-21 | every key that passes create's filter is sent, camelized |
| Transaction.UpdateSendsId | lib/bluesnap_ruby/transaction.rb:49-55 | with the corrected helper, update sends the camelized declared keys, the id among them with the given value |
| Transaction.ReversalStamped | lib/bluesnap_ruby/transaction.rb:76-84 | the reversal hash, after update stamps the id, has exactly three keys, all declared |
| Transaction.ReversalKeys | lib/bluesnap_ruby/transaction.rb:76-85 | a reversal sends exactly the camelized type, reference and id keys |
| VaultedShopper.IdNameDeclared | lib/bluesnap_ruby/vaulted_shopper.rb:3-16 | the id is a declared attribute and is not in create's list |
| VaultedShopper.IdNameSnake | lib/bluesnap_ruby/vaulted_shopper.rb:32 | the id name is snake case, so `new(vaulted_shopper_id:)` assigns it |
| VaultedShopper.ShopperPath | lib/bluesnap_ruby/vaulted_shopper.rb:42-46 | the shopper path is the root, `/merchant/` or `/`, and the id's `to_s` |
| VaultedShopper.ShopperPathDeterminesId | lib/bluesnap_ruby/vaulted_shopper.rb:42-46 | under the same root and flag, equal paths mean equal id texts |
| VaultedShopper.MerchantPathAmbiguous | lib/bluesnap_ruby/vaulted_shopper.rb:44-45 | an id beginning `merchant/` yields the same path as a merchant lookup |
| VaultedShopper.ByMerchant | lib/bluesnap_ruby/vaulted_shopper.rb:45 | the merchant flag is the truthiness of `options[:using_merchant_id]`, and non-hash options raise |
| VaultedShopper.Answer | lib/bluesnap_ruby/vaulted_shopper.rb:19-23 | reading the answer of a BlueSnap verb always raises |
| VaultedShopper.Create | lib/bluesnap_ruby/vaulted_shopper.rb:15-19 | create sends one POST to the root with the helper's body, or nothing when the helper raises, and reading the `location` header fails |
| VaultedShopper.Last | lib/bluesnap_ruby/vaulted_shopper.rb:23 | `.last` is `nil` on no parts and the final part otherwise |
| VaultedShopper.LocationId | lib/bluesnap_ruby/vaulted_shopper.rb:20-23 | the id read from `location` is `nil` without the header and otherwise a non-empty text without `/` |
| VaultedShopper.LocationIdRoundTrip | lib/bluesnap_ruby/vaulted_shopper.rb:20-23 | a location ending in `/id` gives the id back |
| VaultedShopper.LocationIdBlank | lib/bluesnap_ruby/vaulted_shopper.rb:23 | a location of slashes only gives `nil` |
| VaultedShopper.Update | lib/bluesnap_ruby/vaulted_shopper.rb:73-83 | the instance update sends one PUT to the shopper's path with the helper's body, or nothing when the helper raises |
| VaultedShopper.UpdateById | lib/bluesnap_ruby/vaulted_shopper.rb:31-34 | the class update is the instance update of a record built from the id |
| VaultedShopper.UpdateByIdPath | lib/bluesnap_ruby/vaulted_shopper.rb:31-34 | for a scalar id, the class update targets that id's path with the helper's body |
| VaultedShopper.Find | lib/bluesnap_ruby/vaulted_shopper.rb:42-51 | find sends one GET to the shopper path chosen by the merchant flag, or raises on non-hash options |
| VaultedShopper.DeleteAsWritten | lib/bluesnap_ruby/vaulted_shopper.rb:59-67 | delete as written sends nothing and never returns normally |
| VaultedShopper.DeleteNeverReturns | lib/bluesnap_ruby/vaulted_shopper.rb:65 | with hash options, delete calls itself until the stack overflows |
| VaultedShopper.Delete | lib/bluesnap_ruby/vaulted_shopper.rb:59-66 | corrected delete sends one DELETE to the shopper path, or raises on non-hash options |
| VaultedShopper.DeleteMatchesFind | lib/bluesnap_ruby/vaulted_shopper.rb:42-65 | delete targets the same path as find |
| VaultedShopper.NothingSentAsWritten | lib/bluesnap_ruby/vaulted_shopper.rb:15-83 | with the helper the code calls, create and update put nothing on the wire |
| VaultedShopper.PathsAsWritten | lib/bluesnap_ruby/vaulted_shopper.rb:18 | the paths built from `Vendor::ENDPOINT` never start with the shopper endpoint |
| VaultedShopper.CreateSendsListed | lib/bluesnap_ruby/vaulted_shopper.rb:15-19 | corrected create posts to the shopper endpoint exactly the camelized declared keys, never the id |
| VaultedShopper.UpdateSendsListed | lib/bluesnap_ruby/vaulted_shopper.rb:31-34 | corrected class update sends to the shopper's path the same body create would |
| FinancialReport.CreateNamesSnake | lib/airwallex_ruby/models/financial_report.rb:18-21 | every name in create's list is snake case |
| FinancialReport.CreateBody | lib/airwallex_ruby/models/financial_report.rb:23 | the body is a hash for hash data, and non-collections raise for `select` |
| FinancialReport.CreateBodyKeys | lib/airwallex_ruby/models/financial_report.rb:18-23 | `:n` is a body key exactly when `n` is in create's list and the data has `:n` or `"n"` |
| FinancialReport.ServerFieldsNeverSent | lib/airwallex_ruby/models/financial_report.rb:18-23 | the body carries only listed names, never a server-set field |
| FinancialReport.RequiredKept | lib/airwallex_ruby/models/financial_report.rb:18-21 | the required fields present in the data are sent, although two of them are not declared attributes |
| FinancialReport.CreateRequest | lib/airwallex_ruby/models/financial_report.rb:17-25 | the intended request can be built for any hash or array, posts to the endpoint's `/create`, and for a hash never carries a field the server fills in |
| FinancialReport.CreateAsWritten | lib/airwallex_ruby/models/financial_report.rb:25 | for any hash the request could be built, yet the call raises `ArgumentError` |
| PaymentIntent.AttrsSnake | lib/airwallex_ruby/models/payment_intent.rb:4-9 | every declared attribute is snake case |
| PaymentIntent.CreateNamesSnake | lib/airwallex_ruby/models/payment_intent.rb:22 | every name in create's list is snake case |
| PaymentIntent.CreateBody | lib/airwallex_ruby/models/payment_intent.rb:22-23 | the body is a hash for hash data, and non-collections raise for `select` |
| PaymentIntent.CreateBodyKeys | lib/airwallex_ruby/models/payment_intent.rb:22-23 | `:n` is a body key exactly when `n` is declared, is not `id`, and the data has `:n` or `"n"` |
| PaymentIntent.CreateRequest | lib/airwallex_ruby/models/payment_intent.rb:21-25 | the intended request can be built for any hash or array, posts the filtered body to the endpoint's `/create`, and for a hash never carries the id |
| PaymentIntent.Update | lib/airwallex_ruby/models/payment_intent.rb:147-154 | the instance update fails exactly as create does |
| PaymentIntent.UpdateRequest | lib/airwallex_ruby/models/payment_intent.rb:147-151 | the intended update posts create's body to the intent's `/update` path |
| PaymentIntent.UpdateById | lib/airwallex_ruby/models/payment_intent.rb:35-38 | the class update is the instance update of a record built from the id |
| PaymentIntent.UpdateByIdRequest | lib/airwallex_ruby/models/payment_intent.rb:35-38 | the intended class update is the intended instance update of that record |
| PaymentIntent.UpdateByIdTargetsId | lib/airwallex_ruby/models/payment_intent.rb:35-38 | for a scalar id, the intended class update posts create's body to that id's `/update` path |
| PaymentIntent.ActionCall | lib/airwallex_ruby/models/payment_intent.rb:77-141 | confirm, continue, increment, capture and cancel send nothing and raise `ArgumentError` |
| PaymentIntent.ActionRequest | lib/airwallex_ruby/models/payment_intent.rb:77-82 | an intended action posts the data unfiltered to the intent's path followed by the action name |
| PaymentIntent.ActionsForwardEverything | lib/airwallex_ruby/models/payment_intent.rb:82 | actions forward keys such as `:id` that create's filter drops |
| PaymentIntent.ActionPathsDistinct | lib/airwallex_ruby/models/payment_intent.rb:77-138 | different actions on the same intent use different paths |
| PaymentIntent.NothingSentAsWritten | lib/airwallex_ruby/models/payment_intent.rb:21-154 | no payment intent operation puts anything on the wire |

## Left out

- Transport: `Net::HTTP`, TLS, hosts, ports and `URI.parse` are not modelled. A request is a verb, a path and a body, and the transport is a function parameter.
- URI validation and escaping: `uri.path +=` (lib/bluesnap_ruby/transaction.rb:93, lib/bluesnap_ruby/vaulted_shopper.rb:61, lib/airwallex_ruby/models/payment_intent.rb:79) raises `URI::InvalidComponentError` for an id whose text holds a space, `#`, `?` or a non-ASCII character, and `request_url.query =` (lib/airwallex_ruby/report.rb:45, lib/bluesnap_ruby/report.rb:45) deletes tab, CR and LF, escapes characters a query may not hold, and raises `URI::InvalidURIError` on a malformed `%`. The model joins the id's text and the query string as they are. So these contracts hold only for ids and query keys that `URI` accepts unchanged: `Transaction.Find`, `Transaction.FindPathDeterminesId`, `Transaction.Update`, `Transaction.AuthReversal`, `Transaction.UpdateSendsId`, `VaultedShopper.ShopperPath`, `VaultedShopper.ShopperPathDeterminesId`, `VaultedShopper.MerchantPathAmbiguous`, `VaultedShopper.Find`, `VaultedShopper.UpdateById`, `VaultedShopper.UpdateByIdPath`, `VaultedShopper.Delete`, `VaultedShopper.DeleteMatchesFind`, `VaultedShopper.DeleteAsWritten`, `VaultedShopper.DeleteNeverReturns`, `PaymentIntent.UpdateById`, `PaymentIntent.UpdateByIdRequest`, `PaymentIntent.UpdateByIdTargetsId`, `PaymentIntent.ActionCall`, `PaymentIntent.ActionRequest`, `Reports.Query`, `Reports.QueryParses`, `Reports.AirwallexReportFrom`, `Reports.AirwallexReport` and `Reports.BluesnapReport`.
- Float: `Ruby.Value` has no Float kind. A Float would answer `[]` with `NoMethodError` rather than the Integer `TypeError` (lib/bluesnap_ruby/base.rb:67), and its `to_s` and `inspect` print decimals the model does not define. The contracts that range over every value are stated for the kinds modelled: `Ruby.ToS`, `Ruby.Inspect`, `Ruby.IndexBySymbol`, `Ruby.IndexAssign`, `BluesnapResponse.Index`, `BluesnapResponse.Classify`, `AirwallexResponse.Classify`, `AirwallexResponse.ArrayDescription`, `Client.Versioned`, `Reports.Params`, `Reports.Query` and `Reports.QueryParses`.
- `String#underscore`: the key transcoders (lib/airwallex_ruby/models/base.rb:109, lib/airwallex_ruby/base.rb:95, lib/bluesnap_ruby/base.rb:80) call ActiveSupport's `underscore`, because the `RefinedString` refinement is active only inside `Helpers` (lib/airwallex_ruby/helpers.rb:18). ActiveSupport's `underscore` is modelled by the refinement's five rules (`Inflection.Underscore`), which is what it computes when no acronyms are registered; registered acronyms are not modelled.
- JSON: `JSON.parse` is a parameter. `JSON.dump` of request bodies is not modelled; bodies stay Ruby values.
- `puts` of the request and response in models/base.rb is not modelled, because it has no effect on results.
- `deep_symbolize_keys` and `new(response_body)` after a resource call are not modelled. As written, every resource call raises before reaching them.
- `FinancialReport.all`, `find` and `content`, and `PaymentIntent.all` and `find` are not modelled. Each raises before anything is sent, like the calls that are modelled: `all` first calls the undefined `init_params_for_request` (lib/airwallex_ruby/models/financial_report.rb:38, lib/airwallex_ruby/models/payment_intent.rb:54), and `find` and `content` call `get` with three arguments (lib/airwallex_ruby/models/financial_report.rb:52, 66; lib/airwallex_ruby/models/payment_intent.rb:68), which it does not accept.
- The `'200'`/`'204'` comparisons in `VaultedShopper` `delete` and `update` are not modelled. `.code` is read on the value `fetch` returns, which raises first (`VaultedShopper.Answer`).
- `Helpers#model`, which memoises model instances through `define_singleton_method`, is not modelled. It is metaprogramming and has no request behaviour.
- SHA-256 and `SecureRandom` are parameters: the digest is a function, and the random numbers are given as draws.
- `camelize` is ActiveSupport's and is a parameter. The model does not define its rules.
- `downcase` is ASCII-only. Ruby's Unicode case mapping is not modelled.
- `Hash#inspect`/`Array#inspect` are approximated: quoting escapes only `"` and `\`.
- The Airwallex error classes are not modelled as classes. `AirwallexResponse.Outcome` names which one is raised and with what.
- `BluesnapRuby::Error#initialize` builds its message with `to_json` on a Hash argument. That serialisation is not modelled: the message of a Hash error is its `to_s`.
- Hash keys other than Strings and Symbols are not modelled.
- The client settings are global mutable class variables in the code. Here they are one immutable record that each setter replaces, and no thread interleaving is modelled.
- FinancialReport.CreateBodyKeys: states which keys are sent, not their values. The values are the data's values under the same key (`Registry.SelectLookup`) after snake-casing (`KeyCase.SnakeLookupLast`).
- PaymentIntent.CreateBodyKeys: states which keys are sent, not their values, for the same reason.
- Reports.BluesnapWrapper: the nineteen BlueSnap wrappers are one function of the report kind with no `ensures` of its own. Their codes and paths are stated by `Reports.KindOfCode` and `Reports.WrapperPathsDistinct`.
- VaultedShopper.DeleteAsWritten: the unbounded recursion is modelled with a depth counter, and running out of depth stands for `SystemStackError`.

## Findings

| source | as written | input that shows it | evidently intended | confidence | as-written member | corrected member |
|---|---|---|---|---|---|---|
| lib/bluesnap_ruby/transaction.rb:17-24 | `create` calls `parse_body_for_request`, which the BlueSnap base does not define (it defines `parse_options_for_request`) | `Transaction.create({amount: 1})` raises `NoMethodError` and sends nothing | filter the data with `parse_options_for_request` and post it | high; not executed | Transaction.NothingSentAsWritten | Transaction.CreateSendsListed |
| lib/bluesnap_ruby/transaction.rb:49-58 | `update` calls the same missing helper | `Transaction.update('1', {})` raises `NoMethodError` and sends nothing | filter with `parse_options_for_request` and put it | high; not executed | Transaction.NothingSentAsWritten | Transaction.UpdateSendsId |
| lib/bluesnap_ruby/vaulted_shopper.rb:15-24 | `create` calls the same missing helper | `VaultedShopper.create({first_name: 'a'})` raises `NoMethodError` | filter with `parse_options_for_request` and post it | high; not executed | VaultedShopper.NothingSentAsWritten | VaultedShopper.CreateSendsListed |
| lib/bluesnap_ruby/vaulted_shopper.rb:18 | the paths are built from `Vendor::ENDPOINT`, not the class's own `ENDPOINT` | any shopper id: the path starts with the vendor endpoint | use `ENDPOINT`, the vaulted shopper endpoint | high; not executed | VaultedShopper.PathsAsWritten | VaultedShopper.CreateSendsListed |
| lib/bluesnap_ruby/vaulted_shopper.rb:65 | `delete` calls `delete(request_url)`, which is itself with the URL as the id | `VaultedShopper.delete('1')` recurses until `SystemStackError` | call the base's HTTP `delete` | high; not executed | VaultedShopper.DeleteNeverReturns | VaultedShopper.DeleteMatchesFind |
| lib/airwallex_ruby/models/payment_intent.rb:25 | `post(request_url, request_body, options)` passes three arguments to a `post` that takes two | `PaymentIntent.create({amount: 1})` raises `ArgumentError` | post the URL and the body | high; not executed | PaymentIntent.NothingSentAsWritten | PaymentIntent.CreateRequest |
| lib/airwallex_ruby/models/payment_intent.rb:82 | the intent actions also call `post` with three arguments | `PaymentIntent.confirm('1', {})` raises `ArgumentError` | post the URL and the data | high; not executed | PaymentIntent.ActionCall | PaymentIntent.ActionPathsDistinct |
| lib/airwallex_ruby/models/financial_report.rb:25 | `create` calls `post` with three arguments | `FinancialReport.create({file_format: 'CSV'})` raises `ArgumentError` | post the URL and the body | high; not executed | FinancialReport.CreateAsWritten | FinancialReport.CreateRequest |
