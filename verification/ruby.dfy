/** The Ruby values the client library passes around: parsed JSON, request
    option hashes and configuration settings.

    A Ruby `Hash` keeps its keys in insertion order, so it is modelled as a
    sequence of fields. `Hash#[]=` overwrites an existing key in place and
    appends a new one (`Put`). A hash built by assigning a list of pairs one
    after another (`Collapse`) therefore keeps the first position and the last
    value of a repeated key. Keys are Symbols or Strings, which Ruby treats as
    different keys even when their text is the same. */
module Ruby {
  import opened Text

  datatype Option<T> = None | Some(value: T)

  /** The exceptions the modelled code can raise that the library does not
      rescue: a method called on a receiver that lacks it, a call with the
      wrong number of arguments, a failed implicit conversion, a JSON parse
      failure that is not rescued, a constant that is not defined, and the
      `ArgumentError` Net::HTTP raises for a header value holding a line
      break. */
  datatype Fault =
    | NoMethodError(name: string)
    | ArgumentError(given: nat)
    | TypeError(detail: string)
    | ParserError(message: string)
    | NameError(constant: string)
    | HeaderValueError(field: string)
    | SystemStackError

  /** A Ruby computation either returns a value or raises. */
  datatype Result<T> = Ok(value: T) | Raised(fault: Fault)

  datatype Key = SymKey(name: string) | StrKey(name: string)

  datatype Value =
    | Nil
    | Bool(b: bool)
    | Int(i: int)
    | Str(s: string)
    | Sym(name: string)
    | Arr(items: seq<Value>)
    | Hash(fields: seq<Field>)

  datatype Field = Field(key: Key, val: Value)

  /** What `JSON.parse` makes of a text: a value, or a `JSON::ParserError`
      with the parser's message. The parser itself is not modelled; every
      operation that parses takes it as a parameter. */
  datatype Parse = Parsed(value: Value) | Unparsable(message: string)

  /** Only `nil` and `false` are falsy in Ruby. */
  predicate Truthy(v: Value) {
    !(v.Nil? || v == Bool(false))
  }

  function KeysOf(fs: seq<Field>): set<Key> {
    set i | 0 <= i < |fs| :: fs[i].key
  }

  /** Where a key of a hash sits. */
  lemma KeyPosition(fs: seq<Field>, k: Key) returns (j: int)
    requires k in KeysOf(fs)
    ensures 0 <= j < |fs| && fs[j].key == k
  {
    j :| 0 <= j < |fs| && fs[j].key == k;
  }

  predicate UniqueKeys(fs: seq<Field>) {
    forall i, j :: 0 <= i < j < |fs| ==> fs[i].key != fs[j].key
  }

  /** `hash[k]`: the value stored under `k`, or `nil`. */
  function Lookup(fs: seq<Field>, k: Key): Value {
    if |fs| == 0 then Nil
    else if fs[0].key == k then fs[0].val
    else Lookup(fs[1..], k)
  }

  lemma {:induction false} LookupFound(fs: seq<Field>, i: int)
    requires UniqueKeys(fs)
    requires 0 <= i < |fs|
    ensures Lookup(fs, fs[i].key) == fs[i].val
  {
    if i > 0 {
      LookupFound(fs[1..], i - 1);
    }
  }

  lemma {:induction false} LookupAbsent(fs: seq<Field>, k: Key)
    requires k !in KeysOf(fs)
    ensures Lookup(fs, k) == Nil
  {
    if |fs| > 0 {
      assert fs[0].key in KeysOf(fs);
      assert KeysOf(fs[1..]) <= KeysOf(fs) by {
        forall j | 0 <= j < |fs[1..]| ensures fs[1..][j].key in KeysOf(fs) {
          assert fs[1..][j] == fs[j + 1];
        }
      }
      LookupAbsent(fs[1..], k);
    }
  }

  lemma KeysOfCons(f: Field, fs: seq<Field>)
    ensures KeysOf([f] + fs) == {f.key} + KeysOf(fs)
  {
    var r := [f] + fs;
    forall k | k in KeysOf(r) ensures k in {f.key} + KeysOf(fs) {
      var i :| 0 <= i < |r| && r[i].key == k;
      if i > 0 { assert fs[i - 1].key == k; }
    }
    forall k | k in KeysOf(fs) ensures k in KeysOf(r) {
      var i :| 0 <= i < |fs| && fs[i].key == k;
      assert r[i + 1].key == k;
    }
    assert r[0].key == f.key;
  }

  /** `hash[k] = v`. */
  function Put(fs: seq<Field>, k: Key, v: Value): (r: seq<Field>)
    ensures KeysOf(r) == KeysOf(fs) + {k}
    ensures Lookup(r, k) == v
    ensures forall k' :: k' != k ==> Lookup(r, k') == Lookup(fs, k')
    ensures |r| <= |fs| + 1
  {
    if |fs| == 0 then
      assert [Field(k, v)][0].key == k;
      [Field(k, v)]
    else if fs[0].key == k then
      var r := [Field(k, v)] + fs[1..];
      KeysOfCons(fs[0], fs[1..]);
      KeysOfCons(Field(k, v), fs[1..]);
      assert [fs[0]] + fs[1..] == fs;
      r
    else
      var rest := Put(fs[1..], k, v);
      KeysOfCons(fs[0], rest);
      KeysOfCons(fs[0], fs[1..]);
      assert [fs[0]] + fs[1..] == fs;
      [fs[0]] + rest
  }

  lemma KeysOfSnoc(fs: seq<Field>, f: Field)
    ensures KeysOf(fs + [f]) == KeysOf(fs) + {f.key}
  {
    var r := fs + [f];
    forall k | k in KeysOf(r) ensures k in KeysOf(fs) + {f.key} {
      var i :| 0 <= i < |r| && r[i].key == k;
      if i < |fs| { assert fs[i].key == k; }
    }
    forall k | k in KeysOf(fs) ensures k in KeysOf(r) {
      var i :| 0 <= i < |fs| && fs[i].key == k;
      assert r[i].key == k;
    }
    assert r[|fs|].key == f.key;
  }

  /** Assigning a key that is new appends it at the end. */
  lemma {:induction false} PutNew(fs: seq<Field>, k: Key, v: Value)
    requires k !in KeysOf(fs)
    ensures Put(fs, k, v) == fs + [Field(k, v)]
  {
    if |fs| > 0 {
      KeysOfCons(fs[0], fs[1..]);
      assert [fs[0]] + fs[1..] == fs;
      PutNew(fs[1..], k, v);
    }
  }

  /** Assigning keeps the keys distinct. */
  lemma {:induction false} PutUnique(fs: seq<Field>, k: Key, v: Value)
    requires UniqueKeys(fs)
    ensures UniqueKeys(Put(fs, k, v))
  {
    if |fs| > 0 && fs[0].key != k {
      PutUnique(fs[1..], k, v);
      var rest := Put(fs[1..], k, v);
      KeysOfCons(fs[0], fs[1..]);
      assert [fs[0]] + fs[1..] == fs;
      assert fs[0].key !in KeysOf(fs[1..]) by {
        forall i | 0 <= i < |fs[1..]| ensures fs[1..][i].key != fs[0].key {
          assert fs[1..][i] == fs[i + 1];
        }
      }
      assert fs[0].key !in KeysOf(rest);
      var r := [fs[0]] + rest;
      forall i, j | 0 <= i < j < |r| ensures r[i].key != r[j].key {
        if i == 0 {
          assert r[j] == rest[j - 1];
          assert rest[j - 1].key in KeysOf(rest);
        } else {
          assert r[i] == rest[i - 1] && r[j] == rest[j - 1];
        }
      }
    }
  }

  /** A hash built by assigning the given pairs one after another, as
      `each_with_object({}) { |(k, v), h| h[k] = v }` does. */
  function Collapse(fs: seq<Field>): (r: seq<Field>)
    ensures UniqueKeys(r)
    ensures KeysOf(r) == KeysOf(fs)
    ensures |r| <= |fs|
  {
    if |fs| == 0 then []
    else
      var init := fs[..|fs| - 1];
      var last := fs[|fs| - 1];
      assert KeysOf(fs) == KeysOf(init) + {last.key} by {
        assert forall i :: 0 <= i < |init| ==> init[i] == fs[i];
      }
      PutUnique(Collapse(init), last.key, last.val);
      Put(Collapse(init), last.key, last.val)
  }

  /** Every pair of an assigned hash is an old pair or the assigned one. */
  lemma {:induction false} PutMembers(fs: seq<Field>, k: Key, v: Value)
    ensures forall x :: x in Put(fs, k, v) ==> x in fs || x == Field(k, v)
  {
    if |fs| > 0 && fs[0].key != k {
      PutMembers(fs[1..], k, v);
      assert forall x :: x in fs[1..] ==> x in fs;
    } else if |fs| > 0 {
      assert forall x :: x in fs[1..] ==> x in fs;
    }
  }

  /** Every pair of a collapsed hash is one of the pairs assigned. */
  lemma {:induction false} CollapseMembers(fs: seq<Field>)
    ensures forall x :: x in Collapse(fs) ==> x in fs
  {
    if |fs| > 0 {
      var init := fs[..|fs| - 1];
      CollapseMembers(init);
      PutMembers(Collapse(init), fs[|fs| - 1].key, fs[|fs| - 1].val);
      assert forall x :: x in init ==> x in fs;
    }
  }

  /** The value of the last pair of `fs` whose key is `k`, if any. */
  function LastValue(fs: seq<Field>, k: Key): Option<Value> {
    if |fs| == 0 then None
    else if fs[|fs| - 1].key == k then Some(fs[|fs| - 1].val)
    else LastValue(fs[..|fs| - 1], k)
  }

  /** In a collapsed hash a repeated key holds the value of its last pair. */
  lemma {:induction false} CollapseLastWins(fs: seq<Field>, k: Key)
    ensures Lookup(Collapse(fs), k) == (match LastValue(fs, k) case Some(v) => v case None => Nil)
  {
    if |fs| == 0 {
    } else {
      CollapseLastWins(fs[..|fs| - 1], k);
    }
  }

  /** A pair followed by no other pair with its key holds the last value. */
  lemma {:induction false} LastValueAt(fs: seq<Field>, i: int)
    requires 0 <= i < |fs|
    requires forall j :: i < j < |fs| ==> fs[j].key != fs[i].key
    ensures LastValue(fs, fs[i].key) == Some(fs[i].val)
    decreases |fs|
  {
    if i < |fs| - 1 {
      var init := fs[..|fs| - 1];
      assert init[i] == fs[i];
      LastValueAt(init, i);
    }
  }

  lemma {:induction false} UniquePrefix(fs: seq<Field>, n: nat)
    requires UniqueKeys(fs)
    requires n <= |fs|
    ensures UniqueKeys(fs[..n])
  {
  }

  /** Assigning pairs whose keys are already distinct rebuilds them unchanged. */
  lemma {:induction false} CollapseUnique(fs: seq<Field>)
    requires UniqueKeys(fs)
    ensures Collapse(fs) == fs
  {
    if |fs| > 0 {
      var init := fs[..|fs| - 1];
      UniquePrefix(fs, |fs| - 1);
      CollapseUnique(init);
      assert fs[|fs| - 1].key !in KeysOf(init);
      PutNew(init, fs[|fs| - 1].key, fs[|fs| - 1].val);
      assert init + [fs[|fs| - 1]] == fs;
    }
  }

  /** `Object#to_s` as string interpolation uses it. */
  function ToS(v: Value): string {
    match v
    case Nil => ""
    case Bool(b) => if b then "true" else "false"
    case Int(i) => IntToDecimal(i)
    case Str(s) => s
    case Sym(n) => n
    case Arr(_) => Inspect(v)
    case Hash(_) => Inspect(v)
  }

  /** Escapes the two characters `String#inspect` always escapes in printable text. */
  function EscapeQuoted(s: string): string {
    if |s| == 0 then ""
    else (if s[0] == '"' || s[0] == '\\' then ['\\', s[0]] else [s[0]]) + EscapeQuoted(s[1..])
  }

  function JoinComma(parts: seq<string>): string {
    if |parts| == 0 then ""
    else if |parts| == 1 then parts[0]
    else parts[0] + ", " + JoinComma(parts[1..])
  }

  function InspectKey(k: Key): string {
    match k
    case SymKey(n) => ":" + n
    case StrKey(n) => "\"" + EscapeQuoted(n) + "\""
  }

  /** `Object#inspect` in the `{"k"=>v}` format of Ruby 3.3, which is what
      `Array#to_s` and `Hash#to_s` return. */
  function Inspect(v: Value): string {
    match v
    case Nil => "nil"
    case Bool(b) => if b then "true" else "false"
    case Int(i) => IntToDecimal(i)
    case Str(s) => "\"" + EscapeQuoted(s) + "\""
    case Sym(n) => ":" + n
    case Arr(items) =>
      "[" + JoinComma(seq(|items|, i requires 0 <= i < |items| => Inspect(items[i]))) + "]"
    case Hash(fs) =>
      "{" + JoinComma(seq(|fs|, i requires 0 <= i < |fs| => InspectKey(fs[i].key) + "=>" + Inspect(fs[i].val))) + "}"
  }

  predicate BlankString(s: string) {
    forall i :: 0 <= i < |s| ==> IsSpace(s[i])
  }

  /** ActiveSupport's `blank?`: nil, false, empty collections and strings
      made only of white space. `present?` is its negation. */
  predicate Blank(v: Value) {
    match v
    case Nil => true
    case Bool(b) => !b
    case Int(_) => false
    case Str(s) => BlankString(s)
    case Sym(n) => |n| == 0
    case Arr(items) => |items| == 0
    case Hash(fs) => |fs| == 0
  }

  /** A hash whose keys are all Strings, as `JSON.parse` produces. */
  predicate StringKeyed(fs: seq<Field>) {
    forall i :: 0 <= i < |fs| ==> fs[i].key.StrKey?
  }

  /** A Symbol key that none of `extra` carries is not a key of a
      String-keyed hash extended by `extra`. */
  lemma SymbolKeyAbsent(fs: seq<Field>, extra: seq<Field>, k: Key)
    requires StringKeyed(fs) && k.SymKey?
    requires forall j :: 0 <= j < |extra| ==> extra[j].key != k
    ensures k !in KeysOf(fs + extra)
  {
    forall j | 0 <= j < |fs + extra| ensures (fs + extra)[j].key != k {
      if j < |fs| {
        assert (fs + extra)[j] == fs[j];
      } else {
        assert (fs + extra)[j] == extra[j - |fs|];
      }
    }
  }

  /** Assigning such a Symbol key appends it. */
  lemma PutSymbolAfterStrings(fs: seq<Field>, extra: seq<Field>, k: Key, v: Value)
    requires StringKeyed(fs) && k.SymKey?
    requires forall j :: 0 <= j < |extra| ==> extra[j].key != k
    ensures Put(fs + extra, k, v) == fs + extra + [Field(k, v)]
  {
    SymbolKeyAbsent(fs, extra, k);
    PutNew(fs + extra, k, v);
  }

  /** `v[:name]`: a hash looks the Symbol up; `nil`, `true` and `false`
      have no `[]`; every other receiver wants an Integer index. */
  function IndexBySymbol(v: Value, name: string): (r: Result<Value>)
    ensures v.Hash? ==> r == Ok(Lookup(v.fields, SymKey(name)))
    ensures (v.Nil? || v.Bool?) ==> r == Raised(NoMethodError("[]"))
    ensures !(v.Hash? || v.Nil? || v.Bool?) ==> r == Raised(TypeError("no implicit conversion of Symbol into Integer"))
  {
    match v
    case Hash(fs) => Ok(Lookup(fs, SymKey(name)))
    case Nil => Raised(NoMethodError("[]"))
    case Bool(_) => Raised(NoMethodError("[]"))
    case _ => Raised(TypeError("no implicit conversion of Symbol into Integer"))
  }

  /** `v[:name] = x`, which changes the caller's hash: a hash is assigned;
      an array or a String wants an Integer index; nothing else has `[]=`. */
  function IndexAssign(v: Value, name: string, x: Value): (r: Result<Value>)
    ensures v.Hash? ==> r.Ok? && r.value.Hash?
    ensures v.Hash? ==> Lookup(r.value.fields, SymKey(name)) == x
    ensures v.Hash? ==> forall k :: k != SymKey(name) ==> Lookup(r.value.fields, k) == Lookup(v.fields, k)
    ensures v.Hash? ==> KeysOf(r.value.fields) == KeysOf(v.fields) + {SymKey(name)}
    ensures (v.Arr? || v.Str?) ==> r == Raised(TypeError("no implicit conversion of Symbol into Integer"))
    ensures !(v.Hash? || v.Arr? || v.Str?) ==> r == Raised(NoMethodError("[]="))
  {
    match v
    case Hash(fs) => Ok(Hash(Put(fs, SymKey(name), x)))
    case Arr(_) => Raised(TypeError("no implicit conversion of Symbol into Integer"))
    case Str(_) => Raised(TypeError("no implicit conversion of Symbol into Integer"))
    case _ => Raised(NoMethodError("[]="))
  }
}
