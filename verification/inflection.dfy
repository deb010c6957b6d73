/** `RefinedString#underscore` (lib/airwallex_ruby/helpers.rb): five global
    substitutions applied in order. Each `gsub` scans left to right and
    resumes after the end of each match, which the recursive definitions
    below follow step by step. The refinement is active only inside the
    `Helpers` module that declares `using RefinedString`; the
    `deep_snake_case_keys` transcoders call ActiveSupport's
    `String#underscore` instead, which these five rules also describe as
    long as no acronyms are registered, so the key transcoders use this
    function for it. */
module Inflection {
  import opened Text

  predicate NoDoubleColon(s: string) {
    forall i :: 0 <= i < |s| - 1 ==> !(s[i] == ':' && s[i + 1] == ':')
  }

  /** `gsub(/::/, '/')`. */
  function ColonsToSlashes(s: string): (r: string)
    ensures |s| > 0 <==> |r| > 0
  {
    if |s| >= 2 && s[0] == ':' && s[1] == ':' then "/" + ColonsToSlashes(s[2..])
    else if |s| == 0 then ""
    else [s[0]] + ColonsToSlashes(s[1..])
  }

  /** No `::` survives the first substitution, and a `:` that opens its
      result was a lone `:` in the input. */
  lemma {:induction false} ColonsToSlashesNoDoubleColon(s: string)
    ensures NoDoubleColon(ColonsToSlashes(s))
    ensures var r := ColonsToSlashes(s);
      |r| > 0 && r[0] == ':' ==> |s| > 0 && s[0] == ':' && (|s| == 1 || s[1] != ':')
  {
    if |s| >= 2 && s[0] == ':' && s[1] == ':' {
      ColonsToSlashesNoDoubleColon(s[2..]);
      JoinNoDoubleColon("/", ColonsToSlashes(s[2..]));
    } else if |s| > 0 {
      ColonsToSlashesNoDoubleColon(s[1..]);
      JoinNoDoubleColon([s[0]], ColonsToSlashes(s[1..]));
    }
  }

  /** Gluing two strings creates no `::` unless one is made at the seam. */
  lemma JoinNoDoubleColon(a: string, b: string)
    requires NoDoubleColon(a) && NoDoubleColon(b)
    requires !(|a| > 0 && |b| > 0 && a[|a| - 1] == ':' && b[0] == ':')
    ensures NoDoubleColon(a + b)
  {
    var ab := a + b;
    forall i | 0 <= i < |ab| - 1 ensures !(ab[i] == ':' && ab[i + 1] == ':') {
      if i + 1 < |a| {
        assert ab[i] == a[i] && ab[i + 1] == a[i + 1];
      } else if i >= |a| {
        assert ab[i] == b[i - |a|] && ab[i + 1] == b[i + 1 - |a|];
      }
    }
  }

  /** `gsub(/([A-Z]+)([A-Z][a-z])/, '\1_\2')`. A match begins where a run
      of capitals begins (a match ends on a lower-case letter, so it never
      swallows the first letter of the next run) and, `[A-Z]+` being greedy,
      it ends at the last capital of the run and the lower-case letter after
      it. So the substitution puts one `_` between two capitals exactly when
      a lower-case letter follows the second, which is the step below. */
  function SplitAcronym(s: string): (r: string)
    ensures |s| > 0 ==> |r| > 0 && r[0] == s[0]
  {
    if |s| < 3 then s
    else if IsUpper(s[0]) && IsUpper(s[1]) && IsLower(s[2]) then [s[0], '_'] + SplitAcronym(s[1..])
    else [s[0]] + SplitAcronym(s[1..])
  }

  /** `gsub(/([a-z\d])([A-Z])/, '\1_\2')`. */
  function SplitCamel(s: string): (r: string)
    ensures |s| > 0 ==> |r| > 0 && r[0] == s[0]
  {
    if |s| < 2 then s
    else if (IsLower(s[0]) || IsDigit(s[0])) && IsUpper(s[1]) then
      [s[0], '_', s[1]] + SplitCamel(s[2..])
    else
      [s[0]] + SplitCamel(s[1..])
  }

  lemma NoDoubleColonSuffix(s: string, k: nat)
    requires NoDoubleColon(s)
    requires k <= |s|
    ensures NoDoubleColon(s[k..])
  {
    forall i | 0 <= i < |s[k..]| - 1 ensures !(s[k..][i] == ':' && s[k..][i + 1] == ':') {
      assert s[k..][i] == s[k + i] && s[k..][i + 1] == s[k + i + 1];
    }
  }

  lemma {:induction false} SplitAcronymNoDoubleColon(s: string)
    requires NoDoubleColon(s)
    ensures NoDoubleColon(SplitAcronym(s))
  {
    if |s| >= 3 {
      NoDoubleColonSuffix(s, 1);
      SplitAcronymNoDoubleColon(s[1..]);
      if IsUpper(s[0]) && IsUpper(s[1]) && IsLower(s[2]) {
        JoinNoDoubleColon([s[0], '_'], SplitAcronym(s[1..]));
      } else {
        JoinNoDoubleColon([s[0]], SplitAcronym(s[1..]));
      }
    }
  }

  lemma {:induction false} SplitCamelNoDoubleColon(s: string)
    requires NoDoubleColon(s)
    ensures NoDoubleColon(SplitCamel(s))
  {
    if |s| >= 2 {
      if (IsLower(s[0]) || IsDigit(s[0])) && IsUpper(s[1]) {
        NoDoubleColonSuffix(s, 2);
        SplitCamelNoDoubleColon(s[2..]);
        JoinNoDoubleColon([s[0], '_', s[1]], SplitCamel(s[2..]));
      } else {
        NoDoubleColonSuffix(s, 1);
        SplitCamelNoDoubleColon(s[1..]);
        JoinNoDoubleColon([s[0]], SplitCamel(s[1..]));
      }
    }
  }

  /** `tr("-", "_")`. */
  function DashesToUnderscores(s: string): (r: string)
    ensures |r| == |s|
    ensures forall i :: 0 <= i < |s| ==> r[i] == (if s[i] == '-' then '_' else s[i])
  {
    seq(|s|, i requires 0 <= i < |s| => if s[i] == '-' then '_' else s[i])
  }

  /** `String#underscore` as refined in helpers.rb. */
  function Underscore(s: string): string {
    DowncaseAll(DashesToUnderscores(SplitCamel(SplitAcronym(ColonsToSlashes(s)))))
  }

  /** A string already in snake_case form: what `Underscore` returns. */
  predicate IsSnake(s: string) {
    NoUpper(s) && '-' !in s && NoDoubleColon(s)
  }

  /** The result has no upper-case ASCII letter, no `-` and no `::`. */
  lemma UnderscoreIsSnake(s: string)
    ensures IsSnake(Underscore(s))
  {
    var c := ColonsToSlashes(s);
    ColonsToSlashesNoDoubleColon(s);
    SplitAcronymNoDoubleColon(c);
    SplitCamelNoDoubleColon(SplitAcronym(c));
    var u := SplitCamel(SplitAcronym(c));
    var t := DashesToUnderscores(u);
    var r := DowncaseAll(t);
    assert r == Underscore(s);
    forall i | 0 <= i < |r| ensures r[i] != '-' {
      assert t[i] != '-';
    }
    forall i | 0 <= i < |r| - 1 ensures !(r[i] == ':' && r[i + 1] == ':') {
      assert r[i] == ':' ==> t[i] == ':' && u[i] == ':';
      assert r[i + 1] == ':' ==> t[i + 1] == ':' && u[i + 1] == ':';
    }
  }

  lemma {:induction false} ColonsToSlashesFixed(s: string)
    requires NoDoubleColon(s)
    ensures ColonsToSlashes(s) == s
  {
    if |s| > 0 {
      NoDoubleColonSuffix(s, 1);
      ColonsToSlashesFixed(s[1..]);
      NoDoubleColonSuffix(s, 1);
      assert [s[0]] + s[1..] == s;
    }
  }

  lemma {:induction false} SplitAcronymFixed(s: string)
    requires NoUpper(s)
    ensures SplitAcronym(s) == s
  {
    if |s| >= 3 {
      SplitAcronymFixed(s[1..]);
      assert [s[0]] + s[1..] == s;
    }
  }

  lemma {:induction false} SplitCamelFixed(s: string)
    requires NoUpper(s)
    ensures SplitCamel(s) == s
  {
    if |s| >= 2 {
      SplitCamelFixed(s[1..]);
      assert [s[0]] + s[1..] == s;
    }
  }

  /** A string with no upper-case letter, no `-` and no `::` comes back
      unchanged. */
  lemma UnderscoreFixed(s: string)
    requires IsSnake(s)
    ensures Underscore(s) == s
  {
    ColonsToSlashesFixed(s);
    SplitAcronymFixed(s);
    SplitCamelFixed(s);
    assert DashesToUnderscores(s) == s;
    assert DowncaseAll(s) == s;
  }

  /** Lower-case letters, digits and `_` only, as the declared attribute
      names are written. */
  predicate LowerWords(s: string) {
    forall j :: 0 <= j < |s| ==> IsLower(s[j]) || IsDigit(s[j]) || s[j] == '_'
  }

  lemma LowerWordsSnake(s: string)
    requires LowerWords(s)
    ensures IsSnake(s)
  {
  }

  /** Every name of a list is in snake_case form. */
  predicate AllSnake(names: seq<string>) {
    forall i :: 0 <= i < |names| ==> IsSnake(names[i])
  }

  lemma AllSnakeConcat(a: seq<string>, b: seq<string>)
    requires AllSnake(a) && AllSnake(b)
    ensures AllSnake(a + b)
  {
    forall i | 0 <= i < |a + b| ensures IsSnake((a + b)[i]) {
      if i >= |a| {
        assert (a + b)[i] == b[i - |a|];
      }
    }
  }

  /** `underscore` is idempotent. */
  lemma UnderscoreIdempotent(s: string)
    ensures Underscore(Underscore(s)) == Underscore(s)
  {
    UnderscoreIsSnake(s);
    UnderscoreFixed(Underscore(s));
  }

  /** The letters and digits of a name, case and separators `_`/`-` ignored. */
  function Squash(s: string): string {
    if |s| == 0 then ""
    else (if s[0] == '_' || s[0] == '-' then "" else [Downcase(s[0])]) + Squash(s[1..])
  }

  lemma {:induction false} SquashAppend(a: string, b: string)
    ensures Squash(a + b) == Squash(a) + Squash(b)
  {
    if |a| == 0 {
      assert a + b == b;
    } else {
      assert (a + b)[0] == a[0];
      assert (a + b)[1..] == a[1..] + b;
      SquashAppend(a[1..], b);
      var h := if a[0] == '_' || a[0] == '-' then "" else [Downcase(a[0])];
      calc {
        Squash(a + b);
        h + Squash(a[1..] + b);
        h + (Squash(a[1..]) + Squash(b));
        (h + Squash(a[1..])) + Squash(b);
        Squash(a) + Squash(b);
      }
    }
  }

  lemma {:induction false} SquashSplitAcronym(s: string)
    ensures Squash(SplitAcronym(s)) == Squash(s)
  {
    if |s| >= 3 {
      SquashSplitAcronym(s[1..]);
      SquashAppend([s[0]], s[1..]);
      assert [s[0]] + s[1..] == s;
      if IsUpper(s[0]) && IsUpper(s[1]) && IsLower(s[2]) {
        SquashAppend([s[0], '_'], SplitAcronym(s[1..]));
        assert Squash([s[0], '_']) == Squash([s[0]]);
      } else {
        SquashAppend([s[0]], SplitAcronym(s[1..]));
      }
    }
  }

  lemma {:induction false} SquashSplitCamel(s: string)
    ensures Squash(SplitCamel(s)) == Squash(s)
  {
    if |s| >= 2 {
      if (IsLower(s[0]) || IsDigit(s[0])) && IsUpper(s[1]) {
        SquashSplitCamel(s[2..]);
        SquashAppend([s[0], '_', s[1]], SplitCamel(s[2..]));
        SquashAppend([s[0], s[1]], s[2..]);
        assert [s[0], s[1]] + s[2..] == s;
        assert Squash([s[0], '_', s[1]]) == Squash([s[0], s[1]]);
      } else {
        SquashSplitCamel(s[1..]);
        SquashAppend([s[0]], SplitCamel(s[1..]));
        SquashAppend([s[0]], s[1..]);
        assert [s[0]] + s[1..] == s;
      }
    }
  }

  lemma {:induction false} SquashDashes(s: string)
    ensures Squash(DashesToUnderscores(s)) == Squash(s)
  {
    if |s| > 0 {
      SquashDashes(s[1..]);
      assert DashesToUnderscores(s)[1..] == DashesToUnderscores(s[1..]);
    }
  }

  lemma {:induction false} SquashDowncase(s: string)
    ensures Squash(DowncaseAll(s)) == Squash(s)
  {
    if |s| > 0 {
      SquashDowncase(s[1..]);
      assert DowncaseAll(s)[1..] == DowncaseAll(s[1..]);
    }
  }

  /** After `::` has become `/`, the remaining steps only insert `_`, turn
      `-` into `_` and change case: the letters, digits and other characters
      keep their order. */
  lemma UnderscoreOnlySeparates(s: string)
    ensures Squash(Underscore(s)) == Squash(ColonsToSlashes(s))
  {
    var a := ColonsToSlashes(s);
    SquashSplitAcronym(a);
    SquashSplitCamel(SplitAcronym(a));
    SquashDashes(SplitCamel(SplitAcronym(a)));
    SquashDowncase(DashesToUnderscores(SplitCamel(SplitAcronym(a))));
  }

  /** Every `::` turns into `/`; text around it is rewritten on its own. */
  lemma {:induction false} ColonsToSlashesAround(a: string, b: string)
    requires |a| == 0 || a[|a| - 1] != ':'
    ensures ColonsToSlashes(a + "::" + b) == ColonsToSlashes(a) + "/" + ColonsToSlashes(b)
  {
    if |a| == 0 {
      var t := a + "::" + b;
      assert t[0] == ':' && t[1] == ':' && t[2..] == b;
      assert ColonsToSlashes(t) == "/" + ColonsToSlashes(b);
      assert ColonsToSlashes(a) + "/" + ColonsToSlashes(b) == "/" + ColonsToSlashes(b);
    } else if |a| >= 2 && a[0] == ':' && a[1] == ':' {
      ColonsToSlashesAround(a[2..], b);
      ColonsToSlashesAroundPair(a, b);
    } else {
      ColonsToSlashesAround(a[1..], b);
      ColonsToSlashesAroundOne(a, b);
    }
  }

  /** The inductive step when `a` opens with `::`. */
  lemma ColonsToSlashesAroundPair(a: string, b: string)
    requires |a| >= 2 && a[0] == ':' && a[1] == ':' && a[|a| - 1] != ':'
    requires ColonsToSlashes(a[2..] + "::" + b) == ColonsToSlashes(a[2..]) + "/" + ColonsToSlashes(b)
    ensures ColonsToSlashes(a + "::" + b) == ColonsToSlashes(a) + "/" + ColonsToSlashes(b)
  {
    var t := a + "::" + b;
    assert t[0] == ':' && t[1] == ':';
    assert t[2..] == a[2..] + "::" + b;
    assert ColonsToSlashes(t) == "/" + ColonsToSlashes(t[2..]);
    assert ColonsToSlashes(a) == "/" + ColonsToSlashes(a[2..]);
    SeqAssoc("/", ColonsToSlashes(a[2..]), "/" + ColonsToSlashes(b));
  }

  /** The inductive step when `a` does not open with `::`. */
  lemma ColonsToSlashesAroundOne(a: string, b: string)
    requires |a| >= 1 && a[|a| - 1] != ':' && !(|a| >= 2 && a[0] == ':' && a[1] == ':')
    requires ColonsToSlashes(a[1..] + "::" + b) == ColonsToSlashes(a[1..]) + "/" + ColonsToSlashes(b)
    ensures ColonsToSlashes(a + "::" + b) == ColonsToSlashes(a) + "/" + ColonsToSlashes(b)
  {
    var t := a + "::" + b;
    assert t[0] == a[0] && t[1] == (if |a| >= 2 then a[1] else ':');
    assert t[1..] == a[1..] + "::" + b;
    assert ColonsToSlashes(t) == [a[0]] + ColonsToSlashes(t[1..]);
    assert ColonsToSlashes(a) == [a[0]] + ColonsToSlashes(a[1..]);
    SeqAssoc([a[0]], ColonsToSlashes(a[1..]), "/" + ColonsToSlashes(b));
  }

  lemma SeqAssoc(x: string, y: string, z: string)
    ensures x + (y + z) == x + y + z
  {
  }

  /** The second substitution splits an acronym run before its last
      capital. */
  lemma SplitAcronymExample()
    ensures SplitAcronym("APIKey") == "API_Key"
  {
    assert SplitAcronym("Key") == "Key";
    assert SplitAcronym("IKey") == "I_Key";
    assert SplitAcronym("PIKey") == "PI_Key";
    assert SplitAcronym("APIKey") == "API_Key";
  }

  /** The third substitution puts `_` between a lower-case letter or digit
      and the capital after it. */
  lemma SplitCamelExample()
    ensures SplitCamel("userId") == "user_Id"
  {
    assert SplitCamel("Id") == "Id";
    assert SplitCamel("rId") == "r_Id";
    assert SplitCamel("erId") == "er_Id";
    assert SplitCamel("serId") == "ser_Id";
    assert SplitCamel("userId") == "user_Id";
  }
}
