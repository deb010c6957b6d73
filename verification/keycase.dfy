/** The key transcoders of the three base classes. Each is ActiveSupport's
    `Hash#deep_transform_keys`: every key of a hash is replaced by the
    block's value, and hashes nested in hashes or in arrays are rewritten
    the same way. The new hash is built by assigning the rewritten pairs
    one after another, so when two keys meet the same image the later pair
    wins and keeps the position of the first. The block is evaluated for a
    key before its value is rewritten, and the first exception it raises
    ends the whole call. */
module KeyCase {
  import opened Text
  import opened Ruby
  import opened Inflection

  /** `deep_transform_keys` with a block that may raise. */
  function DeepTransformKeys(v: Value, f: Key -> Result<Key>): Result<Value>
    decreases v, 1
  {
    match v
    case Hash(fs) =>
      (match TransformFields(v, 0, f)
       case Raised(e) => Raised(e)
       case Ok(pairs) => Ok(Hash(Collapse(pairs))))
    case Arr(items) =>
      (match TransformItems(v, 0, f)
       case Raised(e) => Raised(e)
       case Ok(xs) => Ok(Arr(xs)))
    case _ => Ok(v)
  }

  /** The rewritten pairs of `h.fields` from position `i` on, before they
      are assigned into the new hash. */
  function TransformFields(h: Value, i: nat, f: Key -> Result<Key>): Result<seq<Field>>
    requires h.Hash? && i <= |h.fields|
    decreases h, 0, |h.fields| - i
  {
    if i == |h.fields| then Ok([])
    else
      var fd := h.fields[i];
      assert fd in h.fields;
      match f(fd.key)
      case Raised(e) => Raised(e)
      case Ok(k) =>
        match DeepTransformKeys(fd.val, f)
        case Raised(e) => Raised(e)
        case Ok(x) =>
          match TransformFields(h, i + 1, f)
          case Raised(e) => Raised(e)
          case Ok(rest) => Ok([Field(k, x)] + rest)
  }

  function TransformItems(a: Value, i: nat, f: Key -> Result<Key>): Result<seq<Value>>
    requires a.Arr? && i <= |a.items|
    decreases a, 0, |a.items| - i
  {
    if i == |a.items| then Ok([])
    else
      assert a.items[i] in a.items;
      match DeepTransformKeys(a.items[i], f)
      case Raised(e) => Raised(e)
      case Ok(x) =>
        match TransformItems(a, i + 1, f)
        case Raised(e) => Raised(e)
        case Ok(rest) => Ok([x] + rest)
  }

  /** `p` holds of every key of every hash inside `v`. */
  predicate EveryKey(v: Value, p: Key -> bool)
    decreases v
  {
    match v
    case Hash(fs) =>
      forall i :: 0 <= i < |fs| ==> p(fs[i].key) && (assert fs[i] in fs; EveryKey(fs[i].val, p))
    case Arr(items) =>
      forall i :: 0 <= i < |items| ==> (assert items[i] in items; EveryKey(items[i], p))
    case _ => true
  }

  /** The transform succeeds exactly when the block succeeds on every key. */
  lemma {:induction false} TransformSucceeds(v: Value, f: Key -> Result<Key>)
    ensures DeepTransformKeys(v, f).Ok? <==> EveryKey(v, AcceptedBy(f))
    decreases v, 1
  {
    match v
    case Hash(fs) => FieldsSucceed(v, 0, f);
    case Arr(items) => ItemsSucceed(v, 0, f);
    case _ =>
  }

  lemma {:induction false} FieldsSucceed(h: Value, i: nat, f: Key -> Result<Key>)
    requires h.Hash? && i <= |h.fields|
    ensures TransformFields(h, i, f).Ok? <==>
      forall j :: i <= j < |h.fields| ==> f(h.fields[j].key).Ok? && EveryKey(h.fields[j].val, AcceptedBy(f))
    decreases h, 0, |h.fields| - i
  {
    if i < |h.fields| {
      assert h.fields[i] in h.fields;
      TransformSucceeds(h.fields[i].val, f);
      FieldsSucceed(h, i + 1, f);
    }
  }

  lemma {:induction false} ItemsSucceed(a: Value, i: nat, f: Key -> Result<Key>)
    requires a.Arr? && i <= |a.items|
    ensures TransformItems(a, i, f).Ok? <==>
      forall j :: i <= j < |a.items| ==> EveryKey(a.items[j], AcceptedBy(f))
    decreases a, 0, |a.items| - i
  {
    if i < |a.items| {
      assert a.items[i] in a.items;
      TransformSucceeds(a.items[i], f);
      ItemsSucceed(a, i + 1, f);
    }
  }

  /** Every hash inside `v` has distinct keys, as every hash Ruby builds does. */
  predicate UniqueEverywhere(v: Value)
    decreases v
  {
    match v
    case Hash(fs) =>
      UniqueKeys(fs) && forall i :: 0 <= i < |fs| ==> (assert fs[i] in fs; UniqueEverywhere(fs[i].val))
    case Arr(items) =>
      forall i :: 0 <= i < |items| ==> (assert items[i] in items; UniqueEverywhere(items[i]))
    case _ => true
  }

  /** Whatever the block promises of its keys holds of every key of the
      result, and every hash of the result has distinct keys. */
  lemma {:induction false} TransformEstablishes(v: Value, f: Key -> Result<Key>, q: Key -> bool)
    requires forall k :: f(k).Ok? ==> q(f(k).value)
    ensures DeepTransformKeys(v, f).Ok? ==>
      EveryKey(DeepTransformKeys(v, f).value, q) && UniqueEverywhere(DeepTransformKeys(v, f).value)
    decreases v, 1
  {
    match v
    case Hash(fs) =>
      FieldsEstablish(v, 0, f, q);
      var r := TransformFields(v, 0, f);
      if r.Ok? {
        CollapseMembers(r.value);
      }
    case Arr(items) =>
      ItemsEstablish(v, 0, f, q);
    case _ =>
  }

  lemma {:induction false} FieldsEstablish(h: Value, i: nat, f: Key -> Result<Key>, q: Key -> bool)
    requires h.Hash? && i <= |h.fields|
    requires forall k :: f(k).Ok? ==> q(f(k).value)
    ensures TransformFields(h, i, f).Ok? ==> forall x :: x in TransformFields(h, i, f).value ==>
      q(x.key) && EveryKey(x.val, q) && UniqueEverywhere(x.val)
    decreases h, 0, |h.fields| - i
  {
    if i < |h.fields| {
      assert h.fields[i] in h.fields;
      TransformEstablishes(h.fields[i].val, f, q);
      FieldsEstablish(h, i + 1, f, q);
    }
  }

  lemma {:induction false} ItemsEstablish(a: Value, i: nat, f: Key -> Result<Key>, q: Key -> bool)
    requires a.Arr? && i <= |a.items|
    requires forall k :: f(k).Ok? ==> q(f(k).value)
    ensures TransformItems(a, i, f).Ok? ==> forall x :: x in TransformItems(a, i, f).value ==>
      EveryKey(x, q) && UniqueEverywhere(x)
    decreases a, 0, |a.items| - i
  {
    if i < |a.items| {
      assert a.items[i] in a.items;
      TransformEstablishes(a.items[i], f, q);
      ItemsEstablish(a, i + 1, f, q);
    }
  }

  /** The keys the block returns unchanged. */
  function KeptBy(f: Key -> Result<Key>): Key -> bool {
    (k: Key) => f(k) == Ok(k)
  }

  /** The keys the block does not raise on. */
  function AcceptedBy(f: Key -> Result<Key>): Key -> bool {
    (k: Key) => f(k).Ok?
  }

  /** A block that returns every key of `v` unchanged leaves `v` unchanged,
      when the hashes of `v` already have distinct keys. */
  lemma {:induction false} TransformIdentity(v: Value, f: Key -> Result<Key>)
    requires UniqueEverywhere(v)
    requires EveryKey(v, KeptBy(f))
    ensures DeepTransformKeys(v, f) == Ok(v)
    decreases v, 1
  {
    match v
    case Hash(fs) =>
      FieldsIdentity(v, 0, f);
      assert fs[0..] == fs;
      CollapseUnique(fs);
    case Arr(items) =>
      ItemsIdentity(v, 0, f);
      assert items[0..] == items;
    case _ =>
  }

  lemma {:induction false} FieldsIdentity(h: Value, i: nat, f: Key -> Result<Key>)
    requires h.Hash? && i <= |h.fields|
    requires UniqueEverywhere(h)
    requires EveryKey(h, KeptBy(f))
    ensures TransformFields(h, i, f) == Ok(h.fields[i..])
    decreases h, 0, |h.fields| - i
  {
    if i < |h.fields| {
      assert h.fields[i] in h.fields;
      assert KeptBy(f)(h.fields[i].key);
      TransformIdentity(h.fields[i].val, f);
      FieldsIdentity(h, i + 1, f);
      assert DeepTransformKeys(h.fields[i].val, f) == Ok(h.fields[i].val);
      assert TransformFields(h, i, f) == Ok([Field(h.fields[i].key, h.fields[i].val)] + h.fields[i + 1..]);
      assert [h.fields[i]] + h.fields[i + 1..] == h.fields[i..];
    } else {
      assert TransformFields(h, i, f) == Ok([]);
      assert h.fields[i..] == [];
    }
  }

  lemma {:induction false} ItemsIdentity(a: Value, i: nat, f: Key -> Result<Key>)
    requires a.Arr? && i <= |a.items|
    requires UniqueEverywhere(a)
    requires EveryKey(a, KeptBy(f))
    ensures TransformItems(a, i, f) == Ok(a.items[i..])
    decreases a, 0, |a.items| - i
  {
    if i < |a.items| {
      assert a.items[i] in a.items;
      TransformIdentity(a.items[i], f);
      ItemsIdentity(a, i + 1, f);
      assert DeepTransformKeys(a.items[i], f) == Ok(a.items[i]);
      assert TransformItems(a, i + 1, f) == Ok(a.items[i + 1..]);
      assert TransformItems(a, i, f) == Ok([a.items[i]] + a.items[i + 1..]);
      assert [a.items[i]] + a.items[i + 1..] == a.items[i..];
    } else {
      assert TransformItems(a, i, f) == Ok([]);
      assert a.items[i..] == [];
    }
  }

  /** The keys of a rewritten hash are the images of its keys. */
  lemma {:induction false} FieldsImage(h: Value, i: nat, f: Key -> Result<Key>)
    requires h.Hash? && i <= |h.fields|
    ensures TransformFields(h, i, f).Ok? ==>
      KeysOf(TransformFields(h, i, f).value) == set j | i <= j < |h.fields| && f(h.fields[j].key).Ok? :: f(h.fields[j].key).value
    decreases |h.fields| - i
  {
    if i < |h.fields| && TransformFields(h, i, f).Ok? {
      FieldsImage(h, i + 1, f);
      var fd := h.fields[i];
      var rest := TransformFields(h, i + 1, f).value;
      KeysOfCons(Field(f(fd.key).value, DeepTransformKeys(fd.val, f).value), rest);
    }
  }

  /** Each rewritten pair sits at the position of the pair it comes from. */
  lemma {:induction false} FieldsAt(h: Value, i: nat, f: Key -> Result<Key>)
    requires h.Hash? && i <= |h.fields|
    ensures TransformFields(h, i, f).Ok? ==>
      |TransformFields(h, i, f).value| == |h.fields| - i &&
      forall j :: i <= j < |h.fields| ==>
        f(h.fields[j].key).Ok? && DeepTransformKeys(h.fields[j].val, f).Ok? &&
        TransformFields(h, i, f).value[j - i] ==
          Field(f(h.fields[j].key).value, DeepTransformKeys(h.fields[j].val, f).value)
    decreases |h.fields| - i
  {
    if i < |h.fields| && TransformFields(h, i, f).Ok? {
      FieldsAt(h, i + 1, f);
    }
  }

  lemma TransformKeysImage(fs: seq<Field>, f: Key -> Result<Key>)
    ensures DeepTransformKeys(Hash(fs), f).Ok? ==>
      KeysOf(DeepTransformKeys(Hash(fs), f).value.fields) == set j | 0 <= j < |fs| && f(fs[j].key).Ok? :: f(fs[j].key).value
  {
    FieldsImage(Hash(fs), 0, f);
  }

  lemma {:induction false} EveryKeyAlways(v: Value, p: Key -> bool)
    requires forall k :: p(k)
    ensures EveryKey(v, p)
    decreases v
  {
    match v
    case Hash(fs) =>
      forall i | 0 <= i < |fs| ensures EveryKey(fs[i].val, p) {
        assert fs[i] in fs;
        EveryKeyAlways(fs[i].val, p);
      }
    case Arr(items) =>
      forall i | 0 <= i < |items| ensures EveryKey(items[i], p) {
        assert items[i] in items;
        EveryKeyAlways(items[i], p);
      }
    case _ =>
  }

  /** The block of `deep_snake_case_keys`: `key.to_s.underscore.to_sym`. */
  function SnakeKey(k: Key): Result<Key> {
    Ok(SymKey(Underscore(k.name)))
  }

  /** A Symbol key in snake_case form. */
  predicate IsSnakeSymbol(k: Key) { k.SymKey? && IsSnake(k.name) }

  /** `deep_snake_case_keys`, the same in all three base classes: anything
      but a non-empty hash comes back as it is; otherwise every key, at
      every depth, becomes the Symbol of its underscored text. */
  function DeepSnakeCaseKeys(v: Value): (r: Value)
    ensures !v.Hash? || Blank(v) ==> r == v
    ensures v.Hash? && !Blank(v) ==> r.Hash? && !Blank(r)
    ensures v.Hash? && !Blank(v) ==> EveryKey(r, IsSnakeSymbol) && UniqueEverywhere(r)
    ensures v.Hash? ==> KeysOf(r.fields) == set j | 0 <= j < |v.fields| :: SymKey(Underscore(v.fields[j].key.name))
  {
    if !v.Hash? || Blank(v) then v
    else
      EveryKeyAlways(v, AcceptedBy(SnakeKey));
      TransformSucceeds(v, SnakeKey);
      forall k ensures SnakeKey(k).Ok? ==> IsSnakeSymbol(SnakeKey(k).value) {
        UnderscoreIsSnake(k.name);
      }
      TransformEstablishes(v, SnakeKey, IsSnakeSymbol);
      TransformKeysImage(v.fields, SnakeKey);
      var r := DeepTransformKeys(v, SnakeKey).value;
      assert v.fields[0].key in KeysOf(v.fields);
      assert SymKey(Underscore(v.fields[0].key.name)) in KeysOf(r.fields);
      r
  }

  /** In a snake-cased hash, a key holds the value of the last pair whose
      key snake-cases to it, when that value has no keys of its own. */
  lemma SnakeLookupLast(fs: seq<Field>, i: int)
    requires 0 <= i < |fs| && !fs[i].val.Hash? && !fs[i].val.Arr?
    requires forall j :: i < j < |fs| ==> Underscore(fs[j].key.name) != Underscore(fs[i].key.name)
    ensures Lookup(DeepSnakeCaseKeys(Hash(fs)).fields, SymKey(Underscore(fs[i].key.name))) == fs[i].val
  {
    var ps := SnakePairs(fs);
    forall j | i < j < |ps| ensures ps[j].key != ps[i].key {
    }
    LastValueAt(ps, i);
    CollapseLastWins(ps, ps[i].key);
  }

  /** The pairs a non-empty hash is rewritten to by `deep_snake_case_keys`,
      before they are assigned into the new hash. */
  lemma SnakePairs(fs: seq<Field>) returns (ps: seq<Field>)
    requires |fs| > 0
    ensures DeepSnakeCaseKeys(Hash(fs)) == Hash(Collapse(ps))
    ensures |ps| == |fs|
    ensures forall j :: 0 <= j < |fs| ==> ps[j].key == SymKey(Underscore(fs[j].key.name))
    ensures forall j :: 0 <= j < |fs| && !fs[j].val.Hash? && !fs[j].val.Arr? ==> ps[j].val == fs[j].val
  {
    ps := SnakeTransformed(fs);
    SnakeFieldsAt(fs, ps);
  }

  /** Pair by pair, what snake-casing a hash's keys gives. */
  lemma SnakeFieldsAt(fs: seq<Field>, ps: seq<Field>)
    requires TransformFields(Hash(fs), 0, SnakeKey) == Ok(ps)
    ensures |ps| == |fs|
    ensures forall j :: 0 <= j < |fs| ==> ps[j].key == SymKey(Underscore(fs[j].key.name))
    ensures forall j :: 0 <= j < |fs| && !fs[j].val.Hash? && !fs[j].val.Arr? ==> ps[j].val == fs[j].val
  {
    FieldsAt(Hash(fs), 0, SnakeKey);
    forall j | 0 <= j < |fs| && !fs[j].val.Hash? && !fs[j].val.Arr? ensures ps[j].val == fs[j].val {
      assert DeepTransformKeys(fs[j].val, SnakeKey) == Ok(fs[j].val);
    }
  }

  lemma SnakeTransformed(fs: seq<Field>) returns (ps: seq<Field>)
    requires |fs| > 0
    ensures TransformFields(Hash(fs), 0, SnakeKey) == Ok(ps)
    ensures DeepSnakeCaseKeys(Hash(fs)) == Hash(Collapse(ps))
  {
    var v := Hash(fs);
    assert !Blank(v);
    EveryKeyAlways(v, AcceptedBy(SnakeKey));
    TransformSucceeds(v, SnakeKey);
    ps := TransformFields(v, 0, SnakeKey).value;
  }

  /** Snake-casing twice is snake-casing once. */
  lemma DeepSnakeCaseKeysIdempotent(v: Value)
    ensures DeepSnakeCaseKeys(DeepSnakeCaseKeys(v)) == DeepSnakeCaseKeys(v)
  {
    if v.Hash? && !Blank(v) {
      var r := DeepSnakeCaseKeys(v);
      forall k | IsSnakeSymbol(k) ensures KeptBy(SnakeKey)(k) {
        UnderscoreFixed(k.name);
        assert SnakeKey(k) == Ok(k);
      }
      EveryKeyImplies(r, IsSnakeSymbol, KeptBy(SnakeKey));
      TransformIdentity(r, SnakeKey);
    }
  }

  lemma {:induction false} EveryKeyImplies(v: Value, p: Key -> bool, q: Key -> bool)
    requires forall k :: p(k) ==> q(k)
    requires EveryKey(v, p)
    ensures EveryKey(v, q)
    decreases v
  {
    match v
    case Hash(fs) =>
      forall i | 0 <= i < |fs| ensures EveryKey(fs[i].val, q) {
        assert fs[i] in fs;
        EveryKeyImplies(fs[i].val, p, q);
      }
    case Arr(items) =>
      forall i | 0 <= i < |items| ensures EveryKey(items[i], q) {
        assert items[i] in items;
        EveryKeyImplies(items[i], p, q);
      }
    case _ =>
  }

  /** The block of the Airwallex `deep_camelize_keys`: the camelized text
      with its first character turned to lower case. `temp[0]` of an empty
      string is `nil`, which has no `downcase`. */
  function LowerCamelKey(camelize: string -> string): Key -> Result<Key> {
    (k: Key) =>
      var t := camelize(k.name);
      if |t| == 0 then Raised(NoMethodError("downcase"))
      else Ok(SymKey(LowerFirst(t)))
  }

  /** `temp[0] = temp[0].downcase` on a non-empty text. */
  function LowerFirst(t: string): (r: string)
    ensures |r| == |t|
    ensures |t| > 0 ==> r[0] == Downcase(t[0]) && r[1..] == t[1..]
  {
    if |t| == 0 then t else [Downcase(t[0])] + t[1..]
  }

  /** A Symbol key that does not start with an upper-case letter. */
  predicate IsLowerInitialSymbol(k: Key) { k.SymKey? && |k.name| > 0 && !IsUpper(k.name[0]) }

  /** The keys whose camelized text is not empty. */
  function Camelizable(camelize: string -> string): Key -> bool {
    (k: Key) => |camelize(k.name)| > 0
  }

  /** `deep_camelize_keys` of the two Airwallex base classes, with
      ActiveSupport's `String#camelize` as the parameter `camelize`. */
  function DeepCamelizeKeys(v: Value, camelize: string -> string): (r: Result<Value>)
    ensures !v.Hash? || Blank(v) ==> r == Ok(v)
    ensures r.Raised? <==> v.Hash? && !Blank(v) && !EveryKey(v, Camelizable(camelize))
    ensures r.Raised? ==> r.fault == NoMethodError("downcase")
    ensures r.Ok? && v.Hash? && !Blank(v) ==>
      r.value.Hash? && EveryKey(r.value, IsLowerInitialSymbol) && UniqueEverywhere(r.value)
    ensures r.Ok? && v.Hash? ==>
      KeysOf(r.value.fields) == set j | 0 <= j < |v.fields| :: SymKey(LowerFirst(camelize(v.fields[j].key.name)))
  {
    if !v.Hash? || Blank(v) then Ok(v)
    else
      var f := LowerCamelKey(camelize);
      TransformSucceeds(v, f);
      assert forall k :: AcceptedBy(f)(k) == Camelizable(camelize)(k);
      EveryKeySame(v, AcceptedBy(f), Camelizable(camelize));
      forall k | f(k).Ok? ensures IsLowerInitialSymbol(f(k).value) {
        var t := camelize(k.name);
        assert f(k).value.name[0] == Downcase(t[0]);
      }
      TransformEstablishes(v, f, IsLowerInitialSymbol);
      RaisesDowncase(v, camelize);
      TransformKeysImage(v.fields, f);
      DeepTransformKeys(v, f)
  }

  lemma EveryKeySame(v: Value, p: Key -> bool, q: Key -> bool)
    requires forall k :: p(k) == q(k)
    ensures EveryKey(v, p) <==> EveryKey(v, q)
  {
    if EveryKey(v, p) { EveryKeyImplies(v, p, q); }
    if EveryKey(v, q) { EveryKeyImplies(v, q, p); }
  }

  /** The only exception the lower-camel block raises is the missing
      `downcase`, so the only one the transform raises is that one. */
  lemma {:induction false} RaisesDowncase(v: Value, camelize: string -> string)
    ensures var r := DeepTransformKeys(v, LowerCamelKey(camelize));
      r.Raised? ==> r.fault == NoMethodError("downcase")
    decreases v, 1
  {
    match v
    case Hash(fs) => FieldsRaiseDowncase(v, 0, camelize);
    case Arr(items) => ItemsRaiseDowncase(v, 0, camelize);
    case _ =>
  }

  lemma {:induction false} FieldsRaiseDowncase(h: Value, i: nat, camelize: string -> string)
    requires h.Hash? && i <= |h.fields|
    ensures var r := TransformFields(h, i, LowerCamelKey(camelize));
      r.Raised? ==> r.fault == NoMethodError("downcase")
    decreases h, 0, |h.fields| - i
  {
    if i < |h.fields| {
      assert h.fields[i] in h.fields;
      RaisesDowncase(h.fields[i].val, camelize);
      FieldsRaiseDowncase(h, i + 1, camelize);
    }
  }

  lemma {:induction false} ItemsRaiseDowncase(a: Value, i: nat, camelize: string -> string)
    requires a.Arr? && i <= |a.items|
    ensures var r := TransformItems(a, i, LowerCamelKey(camelize));
      r.Raised? ==> r.fault == NoMethodError("downcase")
    decreases a, 0, |a.items| - i
  {
    if i < |a.items| {
      assert a.items[i] in a.items;
      RaisesDowncase(a.items[i], camelize);
      ItemsRaiseDowncase(a, i + 1, camelize);
    }
  }

  /** The block of the BlueSnap `deep_camelize_keys`: `key.to_s.camelize.to_sym`. */
  function PascalKey(camelize: string -> string): Key -> Result<Key> {
    (k: Key) => Ok(SymKey(camelize(k.name)))
  }

  /** `deep_camelize_keys` of the BlueSnap base class. */
  function DeepCamelizeKeysPascal(v: Value, camelize: string -> string): (r: Value)
    ensures !v.Hash? || Blank(v) ==> r == v
    ensures v.Hash? ==> r.Hash? && KeysOf(r.fields) == set j | 0 <= j < |v.fields| :: SymKey(camelize(v.fields[j].key.name))
    ensures v.Hash? && !Blank(v) ==> UniqueEverywhere(r) && EveryKey(r, IsSymbol)
  {
    if !v.Hash? || Blank(v) then v
    else
      var f := PascalKey(camelize);
      EveryKeyAlways(v, AcceptedBy(f));
      TransformSucceeds(v, f);
      TransformEstablishes(v, f, IsSymbol);
      TransformKeysImage(v.fields, f);
      DeepTransformKeys(v, f).value
  }

  predicate IsSymbol(k: Key) { k.SymKey? }
}
