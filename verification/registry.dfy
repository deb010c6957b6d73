/** The attribute registry and record construction shared by the three base
    classes. `attr_accessor` also appends the names it declares to a list
    kept per class (`nil` until the class declares one); constructing a
    record snake-cases the keys of the options and assigns those whose
    Symbol is in the list. Request bodies are cut down to the listed names
    before their keys are transcoded. */
module Registry {
  import opened Text
  import opened Ruby
  import opened Inflection
  import opened KeyCase

  /** Each class's list of attribute names, in declaration order. A class
      that never called `attr_accessor` has no entry: its list is `nil`. */
  type Registry = map<string, seq<string>>

  /** `self.attributes`. */
  function Attributes(reg: Registry, cls: string): Option<seq<string>> {
    if cls in reg then Some(reg[cls]) else None
  }

  /** `attr_accessor(*vars)`: `@attributes ||= []` then `concat vars`. */
  function AttrAccessor(reg: Registry, cls: string, vars: seq<string>): (r: Registry)
    ensures Attributes(r, cls).Some?
    ensures forall c :: c != cls ==> Attributes(r, c) == Attributes(reg, c)
    // the earlier names stay first, and the new ones follow in the order given
    ensures var before := if Attributes(reg, cls).Some? then Attributes(reg, cls).value else [];
      var after := Attributes(r, cls).value;
      |after| == |before| + |vars| && after[..|before|] == before && after[|before|..] == vars
    ensures forall a :: a in vars ==> a in Attributes(r, cls).value
  {
    var prior := if cls in reg then reg[cls] else [];
    reg[cls := prior + vars]
  }

  /** Declaring names in two calls is declaring them in one. */
  lemma AttrAccessorConcat(reg: Registry, cls: string, a: seq<string>, b: seq<string>)
    ensures AttrAccessor(AttrAccessor(reg, cls, a), cls, b) == AttrAccessor(reg, cls, a + b)
  {
    var prior := if cls in reg then reg[cls] else [];
    assert (prior + a) + b == prior + (a + b);
  }

  /** A record: the instance variables assigned so far. A reader returns
      `nil` for one never assigned. */
  type Record = map<string, Value>

  function Read(rec: Record, name: string): Value {
    if name in rec then rec[name] else Nil
  }

  /** The keys and values `each` yields. A hash yields its pairs; an array
      yields its elements, an element that is itself an array giving its
      first two entries and any other element standing for the key with a
      `nil` value. */
  function Pairs(v: Value): Option<seq<(Value, Value)>> {
    match v
    case Hash(fs) => Some(seq(|fs|, i requires 0 <= i < |fs| => (KeyValue(fs[i].key), fs[i].val)))
    case Arr(items) => Some(seq(|items|, i requires 0 <= i < |items| => ArrayPair(items[i])))
    case _ => None
  }

  function KeyValue(k: Key): Value {
    match k
    case SymKey(n) => Sym(n)
    case StrKey(n) => Str(n)
  }

  function ArrayPair(x: Value): (Value, Value) {
    if x.Arr? then
      (if |x.items| > 0 then x.items[0] else Nil, if |x.items| > 1 then x.items[1] else Nil)
    else (x, Nil)
  }

  /** Assigns the pairs from position `i` on, as the loop of
      `assign_attributes` does. The argument `k.to_sym` is evaluated before
      `include?` is sent, so a key without `to_sym` raises even when the
      list is `nil`; otherwise the list must not be `nil`, and a key whose
      Symbol is listed is assigned its value. */
  function AssignPairs(attrs: Option<seq<string>>, ps: seq<(Value, Value)>, i: nat, rec: Record): Result<Record>
    requires i <= |ps|
    decreases |ps| - i
  {
    if i == |ps| then Ok(rec)
    else
      var (k, v) := ps[i];
      if !(k.Str? || k.Sym?) then Raised(NoMethodError("to_sym"))
      else if attrs.None? then Raised(NoMethodError("include?"))
      else
        var name := if k.Str? then k.s else k.name;
        AssignPairs(attrs, ps, i + 1, if name in attrs.value then rec[name := v] else rec)
  }

  /** `initialize(options)` / `assign_attributes(options)`: the options are
      snake-cased (`parse_data`) and each listed key is assigned. */
  function Construct(attrs: Option<seq<string>>, options: Value): (r: Result<Record>)
    ensures !(options.Hash? || options.Arr?) ==> r == Raised(NoMethodError("each"))
    ensures options.Hash? && |options.fields| == 0 ==> r == Ok(map[])
  {
    match Pairs(DeepSnakeCaseKeys(options))
    case None => Raised(NoMethodError("each"))
    case Some(ps) => AssignPairs(attrs, ps, 0, map[])
  }

  /** An array whose first entry is neither a pair nor a String or Symbol
      raises for the missing `to_sym` whatever the attribute list, `nil`
      included: the key is converted before `include?` is sent. */
  lemma ConstructKeyWithoutToSym(attrs: Option<seq<string>>, items: seq<Value>)
    requires |items| > 0 && !items[0].Arr? && !items[0].Str? && !items[0].Sym?
    ensures Construct(attrs, Arr(items)) == Raised(NoMethodError("to_sym"))
  {
  }

  /** What constructing from a hash assigns: exactly the listed names that
      are keys of the snake-cased options, each to its value there. Nothing
      is assigned when the list is `nil` and the options are not empty:
      that raises. */
  lemma ConstructFromHash(attrs: Option<seq<string>>, fs: seq<Field>)
    requires |fs| > 0
    ensures var r := Construct(attrs, Hash(fs));
      var snake := DeepSnakeCaseKeys(Hash(fs)).fields;
      (attrs.None? <==> r.Raised?) &&
      (r.Raised? ==> r.fault == NoMethodError("include?")) &&
      (r.Ok? ==>
        (forall a :: a in r.value <==> a in attrs.value && SymKey(a) in KeysOf(snake)) &&
        (forall a :: a in r.value ==> r.value[a] == Lookup(snake, SymKey(a))))
  {
    var snake := DeepSnakeCaseKeys(Hash(fs)).fields;
    var ps := Pairs(Hash(snake)).value;
    assert UniqueKeys(snake) && forall i :: 0 <= i < |snake| ==> snake[i].key.SymKey?;
    if attrs.Some? {
      AssignSymbols(attrs.value, snake, ps, 0, map[]);
      assert snake[0..] == snake;
    }
  }

  /** The record holds the listed names among the first `i` keys, each
      with its value in the hash. */
  ghost predicate AssignedUpTo(attrs: seq<string>, fs: seq<Field>, i: nat, rec: Record)
    requires i <= |fs|
  {
    (forall a :: a in rec <==> a in attrs && exists j :: 0 <= j < i && fs[j].key == SymKey(a)) &&
    (forall a :: a in rec ==> rec[a] == Lookup(fs, SymKey(a)))
  }

  /** The record holds exactly the listed names among the keys, each with
      its value in the hash. */
  ghost predicate AssignedAll(attrs: seq<string>, fs: seq<Field>, rec: Record) {
    (forall a :: a in rec <==> a in attrs && SymKey(a) in KeysOf(fs)) &&
    (forall a :: a in rec ==> rec[a] == Lookup(fs, SymKey(a)))
  }

  /** The loop over a hash with distinct Symbol keys. */
  lemma {:induction false} AssignSymbols(attrs: seq<string>, fs: seq<Field>, ps: seq<(Value, Value)>, i: nat, rec: Record)
    requires UniqueKeys(fs) && forall j :: 0 <= j < |fs| ==> fs[j].key.SymKey?
    requires |ps| == |fs| && i <= |fs|
    requires forall j :: 0 <= j < |fs| ==> ps[j] == (Sym(fs[j].key.name), fs[j].val)
    requires AssignedUpTo(attrs, fs, i, rec)
    ensures var r := AssignPairs(Some(attrs), ps, i, rec);
      r.Ok? && AssignedAll(attrs, fs, r.value)
    decreases |fs| - i
  {
    if i == |fs| {
      AssignSymbolsDone(attrs, fs, rec);
    } else {
      var rec' := if fs[i].key.name in attrs then rec[fs[i].key.name := fs[i].val] else rec;
      AssignSymbolStep(attrs, fs, i, rec, rec');
      assert ps[i] == (Sym(fs[i].key.name), fs[i].val);
      AssignPairsSymbol(attrs, ps, i, rec);
      AssignSymbols(attrs, fs, ps, i + 1, rec');
    }
  }

  /** A turn of the loop on a Symbol key. */
  lemma AssignPairsSymbol(attrs: seq<string>, ps: seq<(Value, Value)>, i: nat, rec: Record)
    requires i < |ps| && ps[i].0.Sym?
    ensures AssignPairs(Some(attrs), ps, i, rec) ==
      AssignPairs(Some(attrs), ps, i + 1, if ps[i].0.name in attrs then rec[ps[i].0.name := ps[i].1] else rec)
  {
  }

  /** When that loop ends, the names it has assigned are the listed names
      among the keys. */
  lemma AssignSymbolsDone(attrs: seq<string>, fs: seq<Field>, rec: Record)
    requires AssignedUpTo(attrs, fs, |fs|, rec)
    ensures AssignedAll(attrs, fs, rec)
  {
    forall a | a in attrs && SymKey(a) in KeysOf(fs) ensures a in rec {
      var j :| 0 <= j < |fs| && fs[j].key == SymKey(a);
    }
  }

  /** One turn of that loop keeps both of its invariants. */
  lemma AssignSymbolStep(attrs: seq<string>, fs: seq<Field>, i: nat, rec: Record, rec': Record)
    requires UniqueKeys(fs) && i < |fs| && fs[i].key.SymKey?
    requires AssignedUpTo(attrs, fs, i, rec)
    requires rec' == if fs[i].key.name in attrs then rec[fs[i].key.name := fs[i].val] else rec
    ensures AssignedUpTo(attrs, fs, i + 1, rec')
  {
    var name := fs[i].key.name;
    assert fs[i].key == SymKey(name);
    LookupFound(fs, i);
    forall a ensures a in rec' <==> a in attrs && exists j :: 0 <= j < i + 1 && fs[j].key == SymKey(a) {
      if a in attrs && a != name && (exists j :: 0 <= j < i + 1 && fs[j].key == SymKey(a)) {
        var j :| 0 <= j < i + 1 && fs[j].key == SymKey(a);
        assert j != i;
      }
    }
  }

  /** A listed name in snake_case takes the value of the last pair whose
      key snake-cases to it, when that value has no keys of its own. */
  lemma ConstructLastWins(attrs: seq<string>, fs: seq<Field>, i: int)
    requires 0 <= i < |fs| && !fs[i].val.Hash? && !fs[i].val.Arr?
    requires Underscore(fs[i].key.name) == fs[i].key.name && fs[i].key.name in attrs
    requires forall j :: i < j < |fs| ==> Underscore(fs[j].key.name) != fs[i].key.name
    ensures Construct(Some(attrs), Hash(fs)).Ok?
    ensures Read(Construct(Some(attrs), Hash(fs)).value, fs[i].key.name) == fs[i].val
  {
    var name := fs[i].key.name;
    SnakeLookupLast(fs, i);
    var snake := DeepSnakeCaseKeys(Hash(fs)).fields;
    assert SymKey(Underscore(fs[i].key.name)) in KeysOf(snake);
    ConstructFromHash(Some(attrs), fs);
  }

  /** A listed name with an upper-case letter is never assigned from a
      hash: snake-cased keys have none. */
  lemma UpperCaseNameNeverAssigned(attrs: Option<seq<string>>, fs: seq<Field>, a: string)
    requires exists i :: 0 <= i < |a| && IsUpper(a[i])
    requires Construct(attrs, Hash(fs)).Ok?
    ensures a !in Construct(attrs, Hash(fs)).value
  {
    if |fs| > 0 {
      ConstructFromHash(attrs, fs);
      var snake := DeepSnakeCaseKeys(Hash(fs));
      assert SymKey(a) !in KeysOf(snake.fields) by {
        forall j | 0 <= j < |snake.fields| ensures snake.fields[j].key != SymKey(a) {
          assert IsSnakeSymbol(snake.fields[j].key);
        }
      }
    }
  }

  /** `hash.select { |k, _| names.include?(k.to_s) }`: the pairs whose key,
      Symbol or String, has a listed name, in their original order. */
  function Select(names: seq<string>, fs: seq<Field>): (r: seq<Field>)
    ensures |r| <= |fs|
    ensures forall x :: x in r ==> x in fs && x.key.name in names
    ensures forall x :: x in fs && x.key.name in names ==> x in r
  {
    if |fs| == 0 then []
    else (if fs[0].key.name in names then [fs[0]] else []) + Select(names, fs[1..])
  }

  /** A listed key is looked up in the selection as in the whole hash. */
  lemma {:induction false} SelectLookup(names: seq<string>, fs: seq<Field>, k: Key)
    requires k.name in names
    ensures Lookup(Select(names, fs), k) == Lookup(fs, k)
  {
    if |fs| > 0 {
      SelectLookup(names, fs[1..], k);
      var rest := Select(names, fs[1..]);
      if fs[0].key.name in names {
        assert ([fs[0]] + rest)[1..] == rest;
      } else {
        assert [] + rest == rest;
      }
    }
  }

  /** Selecting keeps the relative order of the kept pairs: it works
      piecewise on a hash split in two. */
  lemma {:induction false} SelectAppend(names: seq<string>, a: seq<Field>, b: seq<Field>)
    ensures Select(names, a + b) == Select(names, a) + Select(names, b)
  {
    if |a| == 0 {
      assert a + b == b;
    } else {
      assert (a + b)[1..] == a[1..] + b;
      SelectAppend(names, a[1..], b);
    }
  }

  /** When every key is listed, nothing is dropped. */
  lemma {:induction false} SelectAll(names: seq<string>, fs: seq<Field>)
    requires forall i :: 0 <= i < |fs| ==> fs[i].key.name in names
    ensures Select(names, fs) == fs
  {
    if |fs| > 0 {
      SelectAll(names, fs[1..]);
      assert [fs[0]] + fs[1..] == fs;
    }
  }

  lemma {:induction false} SelectIdempotent(names: seq<string>, fs: seq<Field>)
    ensures Select(names, Select(names, fs)) == Select(names, fs)
  {
    if |fs| > 0 {
      SelectIdempotent(names, fs[1..]);
      var rest := Select(names, fs[1..]);
      if fs[0].key.name in names {
        assert ([fs[0]] + rest)[1..] == rest;
      } else {
        assert [] + rest == rest;
      }
    }
  }

  /** `attributes - [name]`: every occurrence of `name` removed. */
  function Without(attrs: seq<string>, name: string): (r: seq<string>)
    ensures forall a :: a in r <==> a in attrs && a != name
  {
    if |attrs| == 0 then []
    else (if attrs[0] == name then [] else [attrs[0]]) + Without(attrs[1..], name)
  }
}
