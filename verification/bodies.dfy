/** The request-body filters of the three base classes:
    `parse_body_for_request` of the two Airwallex bases and
    `parse_options_for_request` of the BlueSnap base. Each keeps the
    top-level entries whose key, as a String, is one of the allowed names,
    and then rewrites the keys of what is left with the class's
    `deep_..._keys`. Nested values are never filtered. */
module Bodies {
  import opened Text
  import opened Ruby
  import opened Inflection
  import opened KeyCase
  import opened Registry

  /** `options.select { |k, _| names.include?(k.to_s) }`. A hash keeps its
      listed pairs; an array yields its elements, each standing for a key
      (its first entry when it is itself an array); nothing else has
      `select`. */
  function SelectOptions(names: seq<string>, options: Value): (r: Result<Value>)
    ensures options.Hash? ==> r == Ok(Hash(Select(names, options.fields)))
    ensures options.Arr? ==> r.Ok? && r.value.Arr?
    ensures options.Arr? ==> forall x :: x in r.value.items <==> x in options.items && ToS(ArrayPair(x).0) in names
    ensures !(options.Hash? || options.Arr?) ==> r == Raised(NoMethodError("select"))
  {
    match options
    case Hash(fs) => Ok(Hash(Select(names, fs)))
    case Arr(items) => Ok(Arr(SelectItems(names, items)))
    case _ => Raised(NoMethodError("select"))
  }

  function SelectItems(names: seq<string>, items: seq<Value>): (r: seq<Value>)
    ensures forall x :: x in r <==> x in items && ToS(ArrayPair(x).0) in names
  {
    if |items| == 0 then []
    else (if ToS(ArrayPair(items[0]).0) in names then [items[0]] else []) + SelectItems(names, items[1..])
  }

  /** The keys a hash body can be sent with: those of the hash whose text is
      listed. */
  function Listed(names: seq<string>, fs: seq<Field>): set<Key> {
    set j | 0 <= j < |fs| && fs[j].key.name in names :: fs[j].key
  }

  lemma ListedKeys(names: seq<string>, fs: seq<Field>)
    ensures Listed(names, fs) == KeysOf(Select(names, fs))
  {
    forall k | k in KeysOf(Select(names, fs)) ensures k in Listed(names, fs) {
      var s := Select(names, fs);
      var j :| 0 <= j < |s| && s[j].key == k;
      assert s[j] in s;
      var i :| 0 <= i < |fs| && fs[i] == s[j];
    }
    forall k | k in Listed(names, fs) ensures k in KeysOf(Select(names, fs)) {
      var j :| 0 <= j < |fs| && fs[j].key.name in names && fs[j].key == k;
      assert fs[j] in fs;
      var s := Select(names, fs);
      var i :| 0 <= i < |s| && s[i] == fs[j];
    }
  }

  /** `parse_body_for_request` of the `Model` base: the listed pairs with
      their keys snake-cased. */
  function ModelBody(names: seq<string>, options: Value): (r: Result<Value>)
    ensures !(options.Hash? || options.Arr?) ==> r == Raised(NoMethodError("select"))
    ensures options.Arr? ==> r.Ok? && r.value.Arr?
    ensures options.Hash? ==> r.Ok? && r.value.Hash?
    ensures options.Hash? ==> EveryKey(r.value, IsSnakeSymbol) && UniqueEverywhere(r.value)
  {
    match SelectOptions(names, options)
    case Raised(e) => Raised(e)
    case Ok(kept) => Ok(DeepSnakeCaseKeys(kept))
  }

  /** The keys renamed position by position are the images of the set of
      keys. */
  lemma KeyImage(s: seq<Field>, f: string -> string)
    ensures (set j | 0 <= j < |s| :: SymKey(f(s[j].key.name))) ==
      set k | k in KeysOf(s) :: SymKey(f(k.name))
  {
    var a := set j | 0 <= j < |s| :: SymKey(f(s[j].key.name));
    var b := set k | k in KeysOf(s) :: SymKey(f(k.name));
    forall x | x in a ensures x in b {
      var j :| 0 <= j < |s| && x == SymKey(f(s[j].key.name));
      assert s[j].key in KeysOf(s);
    }
    forall x | x in b ensures x in a {
      var k :| k in KeysOf(s) && x == SymKey(f(k.name));
      var j := KeyPosition(s, k);
    }
  }

  /** The keys a `Model` body is sent with are exactly the snake-cased
      images of the listed keys. */
  lemma ModelBodyKeys(names: seq<string>, fs: seq<Field>)
    ensures KeysOf(ModelBody(names, Hash(fs)).value.fields) ==
      set k | k in Listed(names, fs) :: SymKey(Underscore(k.name))
  {
    var s := Select(names, fs);
    ListedKeys(names, fs);
    var c := DeepSnakeCaseKeys(Hash(s));
    assert ModelBody(names, Hash(fs)) == Ok(c);
    KeyImage(s, x => Underscore(x));
  }

  /** With snake_case names, filtering and snake-casing a second time
      changes nothing: the sent keys are already listed and already in
      snake_case. */
  lemma ModelBodyIdempotent(names: seq<string>, fs: seq<Field>)
    requires forall i :: 0 <= i < |names| ==> IsSnake(names[i])
    ensures ModelBody(names, ModelBody(names, Hash(fs)).value) == ModelBody(names, Hash(fs))
  {
    var r := ModelBody(names, Hash(fs)).value;
    ModelBodyKeys(names, fs);
    forall i | 0 <= i < |r.fields| ensures r.fields[i].key.name in names {
      assert r.fields[i].key in KeysOf(r.fields);
      var k :| k in Listed(names, fs) && r.fields[i].key == SymKey(Underscore(k.name));
      var n :| n in names && n == k.name;
      UnderscoreFixed(n);
    }
    SelectAll(names, r.fields);
    DeepSnakeCaseKeysIdempotent(Hash(Select(names, fs)));
  }

  /** `parse_body_for_request` of the Basic-auth Airwallex base: the listed
      pairs with lower-first camelCase keys. A listed key whose camelized
      text is empty makes it raise. */
  function BasicBody(names: seq<string>, options: Value, camelize: string -> string): (r: Result<Value>)
    ensures !(options.Hash? || options.Arr?) ==> r == Raised(NoMethodError("select"))
    ensures options.Arr? ==> r.Ok? && r.value.Arr?
    ensures options.Hash? ==>
      (r.Raised? <==> !EveryKey(Hash(Select(names, options.fields)), Camelizable(camelize)))
    ensures options.Hash? && r.Ok? ==> r.value.Hash? && EveryKey(r.value, IsLowerInitialSymbol)
  {
    match SelectOptions(names, options)
    case Raised(e) => Raised(e)
    case Ok(kept) => DeepCamelizeKeys(kept, camelize)
  }

  /** The keys a Basic-auth body is sent with are exactly the lower-first
      camelized images of the listed keys. */
  lemma BasicBodyKeys(names: seq<string>, fs: seq<Field>, camelize: string -> string)
    requires BasicBody(names, Hash(fs), camelize).Ok?
    ensures KeysOf(BasicBody(names, Hash(fs), camelize).value.fields) ==
      set k | k in Listed(names, fs) :: SymKey(LowerFirst(camelize(k.name)))
  {
    var s := Select(names, fs);
    ListedKeys(names, fs);
    var c := DeepCamelizeKeys(Hash(s), camelize).value;
    assert BasicBody(names, Hash(fs), camelize) == Ok(c);
    KeyImage(s, x => LowerFirst(camelize(x)));
  }

  /** `parse_options_for_request` of the BlueSnap base: the listed pairs
      with keys in plain `camelize` form, whose first letter is left as
      `camelize` makes it. It never raises on a hash. */
  function BluesnapOptions(names: seq<string>, options: Value, camelize: string -> string): (r: Result<Value>)
    ensures !(options.Hash? || options.Arr?) ==> r == Raised(NoMethodError("select"))
    ensures options.Arr? ==> r.Ok? && r.value.Arr?
    ensures options.Hash? ==> r.Ok? && r.value.Hash?
    ensures options.Hash? && |Select(names, options.fields)| > 0 ==>
      UniqueEverywhere(r.value) && EveryKey(r.value, IsSymbol)
  {
    match SelectOptions(names, options)
    case Raised(e) => Raised(e)
    case Ok(kept) => Ok(DeepCamelizeKeysPascal(kept, camelize))
  }

  /** The keys a BlueSnap body is sent with are exactly the camelized
      images of the listed keys. */
  lemma BluesnapOptionsKeys(names: seq<string>, fs: seq<Field>, camelize: string -> string)
    ensures KeysOf(BluesnapOptions(names, Hash(fs), camelize).value.fields) ==
      set k | k in Listed(names, fs) :: SymKey(camelize(k.name))
  {
    var s := Select(names, fs);
    ListedKeys(names, fs);
    var c := DeepCamelizeKeysPascal(Hash(s), camelize);
    assert BluesnapOptions(names, Hash(fs), camelize) == Ok(c);
    KeyImage(s, camelize);
  }

  /** Leaving a name out of the list leaves exactly the keys with that
      text out of the body. */
  lemma ListedWithout(names: seq<string>, fs: seq<Field>, name: string)
    ensures Listed(Without(names, name), fs) == set k | k in Listed(names, fs) && k.name != name
  {
  }

  /** A key that is not listed never reaches any of the three bodies, and
      a Symbol and a String key with the same text are treated alike. */
  lemma UnlistedNeverSent(names: seq<string>, fs: seq<Field>, k: Key)
    requires k in KeysOf(fs) && k.name !in names
    ensures k !in Listed(names, fs)
    ensures SymKey(k.name) !in Listed(names, fs) && StrKey(k.name) !in Listed(names, fs)
  {
  }

  /** How a resource turns its attribute names and the caller's options
      into a request body: the class method it calls for that. */
  type BodyHelper = (seq<string>, Value) -> Result<Value>

  /** `parse_body_for_request` looked up on a BlueSnap class: the BlueSnap
      base does not define it, so every call raises. */
  function MissingBodyHelper(): BodyHelper {
    (names: seq<string>, options: Value) => Raised(NoMethodError("parse_body_for_request"))
  }

  /** `parse_options_for_request`, the helper the BlueSnap base does
      define. */
  function OptionsHelper(camelize: string -> string): BodyHelper {
    (names: seq<string>, options: Value) => BluesnapOptions(names, options, camelize)
  }

  /** With every name of a hash listed, the keys that can be sent are all
      its keys. */
  lemma ListedAll(names: seq<string>, fs: seq<Field>)
    requires forall i :: 0 <= i < |fs| ==> fs[i].key.name in names
    ensures Listed(names, fs) == KeysOf(fs)
  {
    ListedKeys(names, fs);
    SelectAll(names, fs);
  }

  /** A key of the hash whose text is listed can be sent. */
  lemma ListedKey(names: seq<string>, fs: seq<Field>, k: Key)
    requires k in KeysOf(fs) && k.name in names
    ensures k in Listed(names, fs)
  {
    var j := KeyPosition(fs, k);
  }

  /** With snake_case names, a `Model` body holds the Symbol of a name
      exactly when the name is listed and the hash has it as a Symbol or a
      String key. */
  lemma SnakeNamesKept(names: seq<string>, fs: seq<Field>, n: string)
    requires forall i :: 0 <= i < |names| ==> IsSnake(names[i])
    ensures SymKey(n) in KeysOf(ModelBody(names, Hash(fs)).value.fields) <==>
      n in names && (SymKey(n) in KeysOf(fs) || StrKey(n) in KeysOf(fs))
  {
    ModelBodyKeys(names, fs);
    var keys := KeysOf(ModelBody(names, Hash(fs)).value.fields);
    if SymKey(n) in keys {
      var k :| k in Listed(names, fs) && SymKey(n) == SymKey(Underscore(k.name));
      var j :| 0 <= j < |fs| && fs[j].key.name in names && fs[j].key == k;
      var i :| 0 <= i < |names| && names[i] == k.name;
      UnderscoreFixed(k.name);
      assert fs[j].key in KeysOf(fs);
    }
    if n in names && (SymKey(n) in KeysOf(fs) || StrKey(n) in KeysOf(fs)) {
      var k := if SymKey(n) in KeysOf(fs) then SymKey(n) else StrKey(n);
      ListedKey(names, fs, k);
      var i :| 0 <= i < |names| && names[i] == n;
      UnderscoreFixed(n);
      assert SymKey(Underscore(k.name)) in keys;
    }
  }

  /** Every key of a `Model` body is a Symbol. */
  lemma ModelBodySymbols(names: seq<string>, fs: seq<Field>)
    ensures forall k :: k in KeysOf(ModelBody(names, Hash(fs)).value.fields) ==> k.SymKey?
  {
    ModelBodyKeys(names, fs);
  }
}
