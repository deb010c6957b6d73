/** The two `Report` classes, lib/airwallex_ruby/report.rb and
    lib/bluesnap_ruby/report.rb. Both build the request the same way: the
    path is the report endpoint followed by the report code, and the query
    string joins `key=url_encode(value.to_s)` pairs with `&`. The transport
    is a parameter: it maps the path and query to a response. */
module Reports {
  import opened Text
  import opened Ruby
  import opened Inflection
  import opened KeyCase
  import opened Registry
  import opened Percent
  import opened Http
  import Utf8
  import AirwallexResponse
  import BluesnapResponse

  const Endpoint := "/services/2/report"

  /** `"#{ENDPOINT}/#{report_code}"`. */
  function Path(code: string): string {
    Endpoint + "/" + code
  }

  /** Different codes never share a path. */
  lemma PathInjective(a: string, b: string)
    requires Path(a) == Path(b)
    ensures a == b
  {
    assert a == Path(a)[|Endpoint| + 1..];
    assert b == Path(b)[|Endpoint| + 1..];
  }

  /** One `"#{k}=#{ERB::Util.url_encode(v.to_s)}"`. */
  function Param(p: (Value, Value)): string {
    ToS(p.0) + "=" + UrlEncode(ToS(p.1))
  }

  function Params(ps: seq<(Value, Value)>): (r: seq<string>)
    ensures |r| == |ps|
    ensures forall i :: 0 <= i < |ps| ==> r[i] == Param(ps[i])
  {
    seq(|ps|, i requires 0 <= i < |ps| => Param(ps[i]))
  }

  /** `options.map { |k, v| ... }.join("&")`: a hash gives its pairs, an
      array its elements as pairs; nothing else has `map`. */
  function Query(options: Value): (r: Result<string>)
    ensures r.Ok? <==> options.Hash? || options.Arr?
    ensures r.Raised? ==> r.fault == NoMethodError("map")
    ensures options == Hash([]) ==> r == Ok("")
  {
    match Pairs(options)
    case None => Raised(NoMethodError("map"))
    case Some(ps) => Ok(Join(Params(ps), '&'))
  }

  /** A parameter whose key holds neither `&` nor `=` can be read back from
      the query string: splitting at `&` gives one part per pair, each part
      splits at `=` into the key and the escaped value, and the escapes
      decode to the UTF-8 form of the value's text. */
  lemma QueryParses(options: Value)
    requires Pairs(options).Some? && |Pairs(options).value| > 0
    requires forall i :: 0 <= i < |Pairs(options).value| ==>
      '&' !in ToS(Pairs(options).value[i].0) && '=' !in ToS(Pairs(options).value[i].0)
    ensures var ps := Pairs(options).value; var parts := SplitOn(Query(options).value, '&');
      |parts| == |ps| &&
      forall i :: 0 <= i < |ps| ==>
        SplitOn(parts[i], '=') == [ToS(ps[i].0), UrlEncode(ToS(ps[i].1))] &&
        DecodeBytes(UrlEncode(ToS(ps[i].1))) == Some(Utf8.Encode(ToS(ps[i].1)))
  {
    var ps := Pairs(options).value;
    var params := Params(ps);
    forall i | 0 <= i < |ps| ensures '&' !in params[i] {
      UrlEncodeSafe(ToS(ps[i].1));
    }
    SplitJoin(params, '&');
    forall i | 0 <= i < |ps|
      ensures SplitOn(params[i], '=') == [ToS(ps[i].0), UrlEncode(ToS(ps[i].1))]
      ensures DecodeBytes(UrlEncode(ToS(ps[i].1))) == Some(Utf8.Encode(ToS(ps[i].1)))
    {
      var e := UrlEncode(ToS(ps[i].1));
      UrlEncodeSafe(ToS(ps[i].1));
      SplitOnSeparated(ToS(ps[i].0), e, '=');
      SplitOnFree(e, '=');
      assert params[i] == ToS(ps[i].0) + ['='] + e;
      UrlEncodeRoundTrip(ToS(ps[i].1));
    }
  }

  /** The reports the BlueSnap class has a wrapper for; the Airwallex class
      has a wrapper for the first only. */
  datatype ReportKind =
    | AccountBalance | ActiveSubscriptions | AddCardAttempts | BluesnapVaultCards
    | MerchantVaultCards | BalanceDetail | CanceledSubscriptions | ChargeBacks
    | DeclinedAuthFees | DeclinedTransactions | DirectDebit | PayoutDetail
    | PayoutSummary | PayoutSummaryStatement | RecurringCharges | RunningBalance
    | StoppedFraud | TransactionDetail | VendorDetails

  /** The code each wrapper passes to `report`. */
  function Code(k: ReportKind): string {
    match k
    case AccountBalance => "AccountBalance"
    case ActiveSubscriptions => "ActiveSubscriptions"
    case AddCardAttempts => "AddCardAttempts"
    case BluesnapVaultCards => "AU_BluesnapVaultCards"
    case MerchantVaultCards => "AU_MerchantVaultCards"
    case BalanceDetail => "BalanceDetail"
    case CanceledSubscriptions => "CanceledSubscriptions"
    case ChargeBacks => "ChargeBacks"
    case DeclinedAuthFees => "DeclinedAuthFees"
    case DeclinedTransactions => "DeclinedTransactions"
    case DirectDebit => "DirectDebit"
    case PayoutDetail => "PayoutDetail"
    case PayoutSummary => "PayoutSummary"
    case PayoutSummaryStatement => "PayoutSummaryStatement"
    case RecurringCharges => "RecurringCharges"
    case RunningBalance => "RunningBalance"
    case StoppedFraud => "StoppedFraud"
    case TransactionDetail => "TransactionDetail"
    case VendorDetails => "VendorDetails"
  }

  /** The report a code names, if any. */
  function KindOf(code: string): (r: Option<ReportKind>)
    ensures r.Some? ==> Code(r.value) == code
  {
    if code == "AccountBalance" then Some(AccountBalance)
    else if code == "ActiveSubscriptions" then Some(ActiveSubscriptions)
    else if code == "AddCardAttempts" then Some(AddCardAttempts)
    else if code == "AU_BluesnapVaultCards" then Some(BluesnapVaultCards)
    else if code == "AU_MerchantVaultCards" then Some(MerchantVaultCards)
    else if code == "BalanceDetail" then Some(BalanceDetail)
    else if code == "CanceledSubscriptions" then Some(CanceledSubscriptions)
    else if code == "ChargeBacks" then Some(ChargeBacks)
    else if code == "DeclinedAuthFees" then Some(DeclinedAuthFees)
    else if code == "DeclinedTransactions" then Some(DeclinedTransactions)
    else if code == "DirectDebit" then Some(DirectDebit)
    else if code == "PayoutDetail" then Some(PayoutDetail)
    else if code == "PayoutSummary" then Some(PayoutSummary)
    else if code == "PayoutSummaryStatement" then Some(PayoutSummaryStatement)
    else if code == "RecurringCharges" then Some(RecurringCharges)
    else if code == "RunningBalance" then Some(RunningBalance)
    else if code == "StoppedFraud" then Some(StoppedFraud)
    else if code == "TransactionDetail" then Some(TransactionDetail)
    else if code == "VendorDetails" then Some(VendorDetails)
    else None
  }

  /** Every wrapper asks for its own report: the code names the wrapper
      back, so no two wrappers share a path. */
  lemma KindOfCode(k: ReportKind)
    ensures KindOf(Code(k)) == Some(k)
  {
    if k == AccountBalance || k == ActiveSubscriptions || k == AddCardAttempts || k == BluesnapVaultCards || k == MerchantVaultCards {
      KindOfCode1(k);
    } else if k == BalanceDetail || k == CanceledSubscriptions || k == ChargeBacks || k == DeclinedAuthFees {
      KindOfCode2(k);
    } else if k == DeclinedTransactions || k == DirectDebit || k == PayoutDetail {
      KindOfCode3(k);
    } else if k == PayoutSummary || k == PayoutSummaryStatement || k == RecurringCharges {
      KindOfCode4(k);
    } else if k == RunningBalance || k == StoppedFraud {
      KindOfCode5(k);
    } else if k == TransactionDetail {
      KindOfCode6(k);
    } else {
      KindOfCode7(k);
    }
  }

  // `KindOfCode1` to `KindOfCode7` are proof helpers for `KindOfCode`,
  // each covering a few kinds so that no single obligation grows too large.
  // They state nothing of their own.
  lemma KindOfCode1(k: ReportKind)
    requires k == AccountBalance || k == ActiveSubscriptions || k == AddCardAttempts || k == BluesnapVaultCards || k == MerchantVaultCards
    ensures KindOf(Code(k)) == Some(k)
  {
  }

  lemma KindOfCode2(k: ReportKind)
    requires k == BalanceDetail || k == CanceledSubscriptions || k == ChargeBacks || k == DeclinedAuthFees
    ensures KindOf(Code(k)) == Some(k)
  {
  }

  lemma KindOfCode3(k: ReportKind)
    requires k == DeclinedTransactions || k == DirectDebit || k == PayoutDetail
    ensures KindOf(Code(k)) == Some(k)
  {
  }

  lemma KindOfCode4(k: ReportKind)
    requires k == PayoutSummary || k == PayoutSummaryStatement || k == RecurringCharges
    ensures KindOf(Code(k)) == Some(k)
  {
  }

  lemma KindOfCode5(k: ReportKind)
    requires k == RunningBalance || k == StoppedFraud
    ensures KindOf(Code(k)) == Some(k)
  {
  }

  lemma KindOfCode6(k: ReportKind)
    requires k == TransactionDetail
    ensures KindOf(Code(k)) == Some(k)
  {
  }

  lemma KindOfCode7(k: ReportKind)
    requires k == VendorDetails
    ensures KindOf(Code(k)) == Some(k)
  {
  }

  lemma WrapperPathsDistinct(k: ReportKind, l: ReportKind)
    requires k != l
    ensures Path(Code(k)) != Path(Code(l))
  {
    KindOfCode(k);
    KindOfCode(l);
    if Path(Code(k)) == Path(Code(l)) {
      PathInjective(Code(k), Code(l));
    }
  }

  /** The names `attr_accessor` declares on the Airwallex `Report`. */
  const AirwallexReportAttrs := ["data", "title", "params", "date_range", "next_page_token", "start_row", "total_row_count"]

  /** How a call that reaches the transport ends. */
  datatype Reply =
      /** `new(response_body)`: the record built. */
    | Built(record: Record)
      /** `fetch` raised one of the errors of the Airwallex base. */
    | Refused(outcome: AirwallexResponse.Outcome)
      /** Some other exception. */
    | Crashed(fault: Fault)

  /** The body object with the three paging headers assigned under Symbol
      keys, in the order of the source. */
  function WithPaging(fs: seq<Field>, resp: Response): (r: seq<Field>)
    ensures Lookup(r, SymKey("total_row_count")) == HeaderValue(resp, "total-row-count")
  {
    var a := Put(fs, SymKey("next_page_token"), HeaderValue(resp, "next-page-token"));
    var b := Put(a, SymKey("start_row"), HeaderValue(resp, "start-row"));
    Put(b, SymKey("total_row_count"), HeaderValue(resp, "total-row-count"))
  }

  /** Lines 46-51 of the Airwallex report, from the response `get`
      returned: the body is parsed again, the paging headers are stored in
      it, and a report is built from it. `get` itself is the Basic-auth
      `fetch`, whose outcome decides first. */
  function AirwallexReportFrom(resp: Response, parse: string -> Parse): (r: Reply)
    ensures r.Refused? <==> AirwallexResponse.Classify(resp.body, parse) != AirwallexResponse.Passed
    ensures r.Refused? ==> r.outcome == AirwallexResponse.Classify(resp.body, parse)
    ensures r.Built? <==>
      resp.body.Some? && parse(resp.body.value).Parsed? && parse(resp.body.value).value.Hash? &&
      AirwallexResponse.Classify(resp.body, parse) == AirwallexResponse.Passed
    // no body at all passes `fetch` and then fails the second parse
    ensures resp.body.None? ==> r == Crashed(TypeError("no implicit conversion of nil into String"))
    ensures r.Built? ==> forall a :: a in r.record ==> a in AirwallexReportAttrs
  {
    var outcome := AirwallexResponse.Classify(resp.body, parse);
    if outcome != AirwallexResponse.Passed then Refused(outcome)
    else if resp.body.None? then Crashed(TypeError("no implicit conversion of nil into String"))
    else match parse(resp.body.value)
      case Unparsable(m) => Crashed(ParserError(m))
      case Parsed(v) =>
        match v
        case Hash(fs) =>
          var hs := WithPaging(fs, resp);
          assert SymKey("total_row_count") in KeysOf(hs);
          ConstructFromHash(Some(AirwallexReportAttrs), hs);
          Built(Construct(Some(AirwallexReportAttrs), Hash(hs)).value)
        case Arr(_) => Crashed(TypeError("no implicit conversion of Symbol into Integer"))
        case Str(_) => Crashed(TypeError("no implicit conversion of Symbol into Integer"))
        case _ => Crashed(NoMethodError("[]="))
  }

  /** `AirwallexRuby::Report.report(report_code, options)`. */
  function AirwallexReport(code: string, options: Value, transport: (string, string) -> Response,
                           parse: string -> Parse): (r: Reply)
    ensures Query(options).Raised? ==> r == Crashed(NoMethodError("map"))
    ensures Query(options).Ok? ==> r == AirwallexReportFrom(transport(Path(code), Query(options).value), parse)
  {
    match Query(options)
    case Raised(e) => Crashed(e)
    case Ok(q) => AirwallexReportFrom(transport(Path(code), q), parse)
  }

  /** `account_balance_report(options)`. */
  function AirwallexAccountBalance(options: Value, transport: (string, string) -> Response,
                                   parse: string -> Parse): (r: Reply)
    ensures r == AirwallexReport(Code(AccountBalance), options, transport, parse)
  {
    AirwallexReport("AccountBalance", options, transport, parse)
  }

  /** The paging headers always win: whatever the body says under
      `next_page_token`, `nextPageToken` or the like, the report holds the
      header values, and `nil` for a header that is absent. The body keys
      are Strings, as `JSON.parse` makes them. */
  lemma PagingFromHeaders(resp: Response, parse: string -> Parse)
    ensures AirwallexReportFrom(resp, parse).Built? && StringKeyed(parse(resp.body.value).value.fields) ==>
      var rec := AirwallexReportFrom(resp, parse).record;
      Read(rec, "next_page_token") == HeaderValue(resp, "next-page-token") &&
      Read(rec, "start_row") == HeaderValue(resp, "start-row") &&
      Read(rec, "total_row_count") == HeaderValue(resp, "total-row-count")
  {
    if AirwallexReportFrom(resp, parse).Built? && StringKeyed(parse(resp.body.value).value.fields) {
      var fs := parse(resp.body.value).value.fields;
      PagingWins(fs, resp);
      assert AirwallexReportFrom(resp, parse).record == Construct(Some(AirwallexReportAttrs), Hash(WithPaging(fs, resp))).value;
    }
  }

  lemma PagingWins(fs: seq<Field>, resp: Response)
    requires StringKeyed(fs)
    ensures var r := Construct(Some(AirwallexReportAttrs), Hash(WithPaging(fs, resp)));
      r.Ok? &&
      Read(r.value, "next_page_token") == HeaderValue(resp, "next-page-token") &&
      Read(r.value, "start_row") == HeaderValue(resp, "start-row") &&
      Read(r.value, "total_row_count") == HeaderValue(resp, "total-row-count")
  {
    PagingAppended(fs, resp);
    var f1 := Field(SymKey("next_page_token"), HeaderValue(resp, "next-page-token"));
    var f2 := Field(SymKey("start_row"), HeaderValue(resp, "start-row"));
    var f3 := Field(SymKey("total_row_count"), HeaderValue(resp, "total-row-count"));
    PagingNameSnake(f1.key.name);
    PagingNameSnake(f2.key.name);
    PagingNameSnake(f3.key.name);
    TrailingFieldsWin(AirwallexReportAttrs, fs, f1, f2, f3);
  }

  /** Three pairs appended last, under distinct snake_case names that are
      listed, are what the record holds for those names. */
  lemma TrailingFieldsWin(attrs: seq<string>, fs: seq<Field>, f1: Field, f2: Field, f3: Field)
    requires f1.key.name in attrs && f2.key.name in attrs && f3.key.name in attrs
    requires Underscore(f1.key.name) == f1.key.name && Underscore(f2.key.name) == f2.key.name
    requires Underscore(f3.key.name) == f3.key.name
    requires f1.key.name != f2.key.name && f1.key.name != f3.key.name && f2.key.name != f3.key.name
    requires !f1.val.Hash? && !f1.val.Arr? && !f2.val.Hash? && !f2.val.Arr? && !f3.val.Hash? && !f3.val.Arr?
    ensures var r := Construct(Some(attrs), Hash(fs + [f1, f2, f3]));
      r.Ok? && Read(r.value, f1.key.name) == f1.val &&
      Read(r.value, f2.key.name) == f2.val && Read(r.value, f3.key.name) == f3.val
  {
    var hs := fs + [f1, f2, f3];
    var n := |fs|;
    assert hs[n] == f1 && hs[n + 1] == f2 && hs[n + 2] == f3;
    ConstructLastWins(attrs, hs, n);
    ConstructLastWins(attrs, hs, n + 1);
    ConstructLastWins(attrs, hs, n + 2);
  }

  /** Over String keys the three Symbol keys are new, so they are appended
      in order. */
  lemma PagingAppended(fs: seq<Field>, resp: Response)
    requires StringKeyed(fs)
    ensures WithPaging(fs, resp) == fs + [Field(SymKey("next_page_token"), HeaderValue(resp, "next-page-token")),
                                          Field(SymKey("start_row"), HeaderValue(resp, "start-row")),
                                          Field(SymKey("total_row_count"), HeaderValue(resp, "total-row-count"))]
  {
    AppendThreeSymbols(fs, Field(SymKey("next_page_token"), HeaderValue(resp, "next-page-token")),
                           Field(SymKey("start_row"), HeaderValue(resp, "start-row")),
                           Field(SymKey("total_row_count"), HeaderValue(resp, "total-row-count")));
  }

  lemma AppendThreeSymbols(fs: seq<Field>, f1: Field, f2: Field, f3: Field)
    requires StringKeyed(fs) && f1.key.SymKey? && f2.key.SymKey? && f3.key.SymKey?
    requires f1.key != f2.key && f1.key != f3.key && f2.key != f3.key
    ensures Put(Put(Put(fs, f1.key, f1.val), f2.key, f2.val), f3.key, f3.val) == fs + [f1, f2, f3]
  {
    SymbolKeyAbsent(fs, [], f1.key);
    SymbolKeyAbsent(fs, [], f2.key);
    SymbolKeyAbsent(fs, [], f3.key);
    assert fs + [] == fs;
    PutThree(fs, f1.key, f1.val, f2.key, f2.val, f3.key, f3.val);
  }

  lemma PutThree(fs: seq<Field>, k1: Key, v1: Value, k2: Key, v2: Value, k3: Key, v3: Value)
    requires k1 !in KeysOf(fs) && k2 !in KeysOf(fs) && k3 !in KeysOf(fs)
    requires k1 != k2 && k1 != k3 && k2 != k3
    ensures Put(Put(Put(fs, k1, v1), k2, v2), k3, v3) == fs + [Field(k1, v1), Field(k2, v2), Field(k3, v3)]
  {
    var f1, f2 := Field(k1, v1), Field(k2, v2);
    PutTwo(fs, k1, v1, k2, v2);
    var b := fs + [f1, f2];
    KeysOfTwo(fs, f1, f2);
    PutNew(b, k3, v3);
    SnocAfterPair(fs, f1, f2, Field(k3, v3));
  }

  lemma SnocAfterPair(fs: seq<Field>, a: Field, b: Field, c: Field)
    ensures fs + [a, b] + [c] == fs + [a, b, c]
  {
  }

  lemma KeysOfTwo(fs: seq<Field>, f1: Field, f2: Field)
    ensures KeysOf(fs + [f1, f2]) == KeysOf(fs) + {f1.key, f2.key}
  {
    KeysOfSnoc(fs, f1);
    KeysOfSnoc(fs + [f1], f2);
    assert fs + [f1] + [f2] == fs + [f1, f2];
  }

  lemma PutTwo(fs: seq<Field>, k1: Key, v1: Value, k2: Key, v2: Value)
    requires k1 !in KeysOf(fs) && k2 !in KeysOf(fs) && k1 != k2
    ensures Put(Put(fs, k1, v1), k2, v2) == fs + [Field(k1, v1), Field(k2, v2)]
  {
    var f1 := Field(k1, v1);
    PutNew(fs, k1, v1);
    assert k2 !in KeysOf(fs + [f1]) by { KeysOfSnoc(fs, f1); }
    PutNew(fs + [f1], k2, v2);
  }

  /** The three paging names are already in snake_case. */
  lemma PagingNameSnake(s: string)
    requires s == "next_page_token" || s == "start_row" || s == "total_row_count"
    ensures Underscore(s) == s
  {
    assert forall i :: 0 <= i < |s| ==> IsLower(s[i]) || s[i] == '_';
    UnderscoreFixed(s);
  }

  /** `BluesnapRuby::Report.report(report_code, options)`. The BlueSnap
      `get` returns the unwrapped `response` value, never the transport
      response, and that value has no `body`: every call raises. */
  function BluesnapReport(code: string, options: Value, transport: (string, string) -> Response,
                          parse: string -> Parse): (r: Result<Record>)
    ensures r.Raised?
    ensures Query(options).Raised? ==> r.fault == NoMethodError("map")
    ensures Query(options).Ok? ==>
      r.fault == BluesnapResponse.ReadBack(transport(Path(code), Query(options).value).body, parse, "body").fault
  {
    match Query(options)
    case Raised(e) => Raised(e)
    case Ok(q) => Raised(BluesnapResponse.ReadBack(transport(Path(code), q).body, parse, "body").fault)
  }

  /** Each of the nineteen wrappers, `..._report(options)`. */
  function BluesnapWrapper(k: ReportKind, options: Value, transport: (string, string) -> Response,
                           parse: string -> Parse): Result<Record>
  {
    BluesnapReport(Code(k), options, transport, parse)
  }
}
