/** The Airwallex `FinancialReport` model of
    lib/airwallex_ruby/models/financial_report.rb: `create` filters the
    caller's data against a literal list of request names rather than the
    declared attributes. The class methods pass three arguments to the
    `Model` base's `post` and `get`, which take at most two, so as written
    every call raises `ArgumentError` before a request is sent;
    `CreateRequest` is the request `create` evidently means to send. */
module FinancialReport {
  import opened Text
  import opened Ruby
  import opened Inflection
  import opened Registry
  import opened Bodies
  import opened Http

  /** The names declared with `attr_accessor`, in order. */
  const Attrs: seq<string> := [
    "id", "file_format", "file_name", "report_expires_at", "report_parameters", "report_version", "status",
    "type"]

  const Endpoint := "/finance/financial_reports"

  /** The names `create` lets through. */
  const CreateNames: seq<string> := [
    "currencies", "file_format", "file_name", "from_date", "report_version", "settlement_currencies",
    "statuses", "time_zone", "to_date", "transaction_types", "type"]

  /** Declared names the server fills in. */
  const ServerFields: seq<string> := ["id", "status", "report_expires_at", "report_parameters"]

  /** The names the documentation of `create` marks as required. */
  const Required: seq<string> := ["file_format", "from_date", "to_date", "type"]

  // The four `CreateNamesSnake…` lemmas below are proof helpers for
  // `CreateNamesSnake`, each checking a slice of the names so that no single
  // obligation grows too large. They state nothing of their own.
  lemma CreateNamesSnakeFirst()
    ensures forall i :: 0 <= i < 3 ==> IsSnake(CreateNames[i])
  {
    LowerWordsSnake(CreateNames[0]);
    LowerWordsSnake(CreateNames[1]);
    LowerWordsSnake(CreateNames[2]);
  }

  lemma CreateNamesSnakeSecond()
    ensures forall i :: 3 <= i < 6 ==> IsSnake(CreateNames[i])
  {
    LowerWordsSnake(CreateNames[3]);
    LowerWordsSnake(CreateNames[4]);
    LowerWordsSnake(CreateNames[5]);
  }

  lemma CreateNamesSnakeThird()
    ensures forall i :: 6 <= i < 9 ==> IsSnake(CreateNames[i])
  {
    LowerWordsSnake(CreateNames[6]);
    LowerWordsSnake(CreateNames[7]);
    LowerWordsSnake(CreateNames[8]);
  }

  lemma CreateNamesSnakeLast()
    ensures forall i :: 9 <= i < 11 ==> IsSnake(CreateNames[i])
  {
    LowerWordsSnake(CreateNames[9]);
    LowerWordsSnake(CreateNames[10]);
  }

  lemma CreateNamesSnake()
    ensures AllSnake(CreateNames)
  {
    CreateNamesSnakeFirst();
    CreateNamesSnakeSecond();
    CreateNamesSnakeThird();
    CreateNamesSnakeLast();
  }

  /** The body `create` builds (line 23). */
  function CreateBody(data: Value): (r: Result<Value>)
    ensures !(data.Hash? || data.Arr?) ==> r == Raised(NoMethodError("select"))
    ensures data.Hash? ==> r.Ok? && r.value.Hash?
  {
    ModelBody(CreateNames, data)
  }

  /** A name reaches the body, as a Symbol, exactly when it is on the list
      and the data has it as a Symbol or a String key: the list holds
      Strings but the comparison is on `to_s`. */
  lemma CreateBodyKeys(fs: seq<Field>, n: string)
    ensures SymKey(n) in KeysOf(CreateBody(Hash(fs)).value.fields) <==>
      n in CreateNames && (SymKey(n) in KeysOf(fs) || StrKey(n) in KeysOf(fs))
  {
    CreateNamesSnake();
    SnakeNamesKept(CreateNames, fs, n);
  }

  /** Every key of the body is a listed Symbol, so the id, the status and
      the two report fields the server fills in are never sent. */
  lemma ServerFieldsNeverSent(fs: seq<Field>)
    ensures forall k :: k in KeysOf(CreateBody(Hash(fs)).value.fields) ==> k.SymKey? && k.name in CreateNames
    ensures forall n :: n in ServerFields ==> SymKey(n) !in KeysOf(CreateBody(Hash(fs)).value.fields)
  {
    ModelBodySymbols(CreateNames, fs);
    forall k | k in KeysOf(CreateBody(Hash(fs)).value.fields) ensures k.name in CreateNames {
      CreateBodyKeys(fs, k.name);
    }
    forall n | n in ServerFields ensures n !in CreateNames {
    }
  }

  /** The four required names all pass, two of them although they are not
      declared attributes. */
  lemma RequiredKept(fs: seq<Field>)
    ensures forall n :: n in Required && (SymKey(n) in KeysOf(fs) || StrKey(n) in KeysOf(fs)) ==>
      SymKey(n) in KeysOf(CreateBody(Hash(fs)).value.fields)
    ensures "from_date" !in Attrs && "to_date" !in Attrs
  {
    forall n | n in Required && (SymKey(n) in KeysOf(fs) || StrKey(n) in KeysOf(fs))
      ensures SymKey(n) in KeysOf(CreateBody(Hash(fs)).value.fields)
    {
      assert CreateNames[1] == Required[0] && CreateNames[3] == Required[1];
      assert CreateNames[8] == Required[2] && CreateNames[10] == Required[3];
      CreateBodyKeys(fs, n);
    }
  }

  /** `FinancialReport.create(data, options)` as written: the body is
      built, then `post` is given three arguments. */
  function Create(data: Value): Call<Record> {
    ThreeArgumentCall(data, CreateBody(data))
  }

  /** The POST `create` means to send, under the configured base path. It
      can be built for any hash or array of data, and for a hash it never
      carries a field the server fills in. */
  function CreateRequest(base: string, data: Value): (r: Result<Request>)
    ensures r.Ok? <==> data.Hash? || data.Arr?
    ensures r.Ok? ==> r.value.verb == HttpPost && r.value.path == base + Endpoint + "/create"
    ensures data.Hash? ==>
      (r.value.body.Hash? && forall n :: n in ServerFields ==> SymKey(n) !in KeysOf(r.value.body.fields))
  {
    if data.Hash? then
      ServerFieldsNeverSent(data.fields);
      Intended(HttpPost, base + Endpoint + "/create", CreateBody(data))
    else
      Intended(HttpPost, base + Endpoint + "/create", CreateBody(data))
  }

  /** For a hash of data, the intended request can be built but the call as
      written sends nothing and raises. */
  lemma CreateAsWritten(base: string, fs: seq<Field>)
    ensures CreateRequest(base, Hash(fs)).Ok?
    ensures Create(Hash(fs)) == Call(Hash(fs), [], Raised(ArgumentError(3)))
  {
  }
}
