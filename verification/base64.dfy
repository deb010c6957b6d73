/** Base 64 encoding as section 4 of RFC 4648 defines it, with the two
    alphabets Ruby's `Base64` module offers: `strict_encode64` uses the
    standard one and `urlsafe_encode64` the one of section 5, which has
    `-` and `_` for the last two digits. Both pad with `=` and add no line
    breaks. */
module Base64 {
  import opened Ruby
  import opened Utf8

  datatype Alphabet = Standard | UrlSafe

  /** The character for the 6-bit value `v`. */
  function Digit(a: Alphabet, v: int): (c: char)
    requires 0 <= v < 64
    ensures c != '='
  {
    if v < 26 then ('A' as int + v) as char
    else if v < 52 then ('a' as int + v - 26) as char
    else if v < 62 then ('0' as int + v - 52) as char
    else if v == 62 then (if a == Standard then '+' else '-')
    else (if a == Standard then '/' else '_')
  }

  /** The 6-bit value of a digit character, if it is one. */
  function DigitValue(a: Alphabet, c: char): (r: Option<int>)
    ensures r.Some? ==> 0 <= r.value < 64 && Digit(a, r.value) == c
  {
    if 'A' <= c <= 'Z' then Some(c as int - 'A' as int)
    else if 'a' <= c <= 'z' then Some(c as int - 'a' as int + 26)
    else if '0' <= c <= '9' then Some(c as int - '0' as int + 52)
    else if c == (if a == Standard then '+' else '-') then Some(62)
    else if c == (if a == Standard then '/' else '_') then Some(63)
    else None
  }

  lemma DigitValueOfDigit(a: Alphabet, v: int)
    requires 0 <= v < 64
    ensures DigitValue(a, Digit(a, v)) == Some(v)
  {
  }

  predicate IsDigitOf(a: Alphabet, c: char) { DigitValue(a, c).Some? }

  /** One to three bytes as four characters: a digit for each started
      group of six bits, then `=` up to four. */
  function Group(a: Alphabet, b: seq<Byte>): (r: string)
    requires 1 <= |b| <= 3
    ensures |r| == 4
    ensures forall i :: 0 <= i <= |b| ==> IsDigitOf(a, r[i])
    ensures forall i :: |b| < i < 4 ==> r[i] == '='
  {
    var b0: int := b[0];
    var b1: int := if |b| > 1 then b[1] else 0;
    var b2: int := if |b| > 2 then b[2] else 0;
    var x0, x1, x2, x3 := b0 / 4, (b0 % 4) * 16 + b1 / 16, (b1 % 16) * 4 + b2 / 64, b2 % 64;
    DigitValueOfDigit(a, x0);
    DigitValueOfDigit(a, x1);
    DigitValueOfDigit(a, x2);
    DigitValueOfDigit(a, x3);
    [Digit(a, x0), Digit(a, x1),
     if |b| > 1 then Digit(a, x2) else '=',
     if |b| > 2 then Digit(a, x3) else '=']
  }

  /** Every three bytes become four digits; a final one or two bytes become
      two or three digits followed by `=` up to four characters. */
  function Encode(a: Alphabet, b: seq<Byte>): (r: string)
    ensures |r| == 4 * ((|b| + 2) / 3)
    decreases |b|
  {
    if |b| == 0 then ""
    else if |b| < 3 then Group(a, b)
    else
      assert (|b| + 2) / 3 == 1 + (|b| - 3 + 2) / 3;
      Group(a, b[..3]) + Encode(a, b[3..])
  }

  /** The bytes one group of four characters stands for, if it is a valid
      group; a padded group may only end the input. */
  function DecodeGroup(a: Alphabet, g: string, last: bool): Option<seq<Byte>>
    requires |g| == 4
  {
    var v0 := DigitValue(a, g[0]);
    var v1 := DigitValue(a, g[1]);
    var v2 := DigitValue(a, g[2]);
    var v3 := DigitValue(a, g[3]);
    if v0.None? || v1.None? then None
    else
      var x0 := v0.value;
      var x1 := v1.value;
      var b0 := x0 * 4 + x1 / 16;
      if g[2] == '=' && g[3] == '=' then
        if last && x1 % 16 == 0 then Some([b0]) else None
      else if v2.None? then None
      else
        var x2 := v2.value;
        var b1 := (x1 % 16) * 16 + x2 / 4;
        if g[3] == '=' then
          if last && x2 % 4 == 0 then Some([b0, b1]) else None
        else if v3.None? then None
        else Some([b0, b1, (x2 % 4) * 64 + v3.value])
  }

  /** Strict decoding: the inverse of `Encode`, `None` for any text that
      `Encode` cannot produce. */
  function Decode(a: Alphabet, s: string): Option<seq<Byte>>
    decreases |s|
  {
    if |s| == 0 then Some([])
    else if |s| < 4 then None
    else match DecodeGroup(a, s[..4], |s| == 4)
      case None => None
      case Some(g) =>
        match Decode(a, s[4..])
        case None => None
        case Some(rest) => Some(g + rest)
  }

  lemma GroupRoundTrip(a: Alphabet, b: seq<Byte>, last: bool)
    requires 1 <= |b| <= 3
    requires |b| < 3 ==> last
    ensures DecodeGroup(a, Group(a, b), last) == Some(b)
  {
    if |b| == 1 {
      GroupRoundTripOne(a, b);
    } else if |b| == 2 {
      GroupRoundTripTwo(a, b);
    } else {
      GroupRoundTripThree(a, b, last);
    }
  }

  lemma GroupRoundTripOne(a: Alphabet, b: seq<Byte>)
    requires |b| == 1
    ensures DecodeGroup(a, Group(a, b), true) == Some(b)
  {
    var x0, x1, x2, x3 := Sextets(a, b);
    DecodeOne(a, x0, x1);
    assert [b[0]] == b;
  }

  lemma GroupRoundTripTwo(a: Alphabet, b: seq<Byte>)
    requires |b| == 2
    ensures DecodeGroup(a, Group(a, b), true) == Some(b)
  {
    var x0, x1, x2, x3 := Sextets(a, b);
    DecodeTwo(a, x0, x1, x2);
    assert [b[0], b[1]] == b;
  }

  lemma GroupRoundTripThree(a: Alphabet, b: seq<Byte>, last: bool)
    requires |b| == 3
    ensures DecodeGroup(a, Group(a, b), last) == Some(b)
  {
    var x0, x1, x2, x3 := Sextets(a, b);
    DecodeThree(a, x0, x1, x2, x3, last);
    var e := [x0 * 4 + x1 / 16, (x1 % 16) * 16 + x2 / 4, (x2 % 4) * 64 + x3];
    assert e == b by { assert e[0] == b[0] && e[1] == b[1] && e[2] == b[2]; }
  }

  /** The six-bit values `Group` writes as digits, and how the bytes are
      put back together from them. */
  lemma Sextets(a: Alphabet, b: seq<Byte>) returns (x0: int, x1: int, x2: int, x3: int)
    requires 1 <= |b| <= 3
    ensures 0 <= x0 < 64 && 0 <= x1 < 64 && 0 <= x2 < 64 && 0 <= x3 < 64
    ensures Group(a, b) == [Digit(a, x0), Digit(a, x1),
                            if |b| > 1 then Digit(a, x2) else '=',
                            if |b| > 2 then Digit(a, x3) else '=']
    ensures x0 * 4 + x1 / 16 == b[0]
    ensures |b| == 1 ==> x1 % 16 == 0
    ensures |b| > 1 ==> (x1 % 16) * 16 + x2 / 4 == b[1]
    ensures |b| == 2 ==> x2 % 4 == 0
    ensures |b| > 2 ==> (x2 % 4) * 64 + x3 == b[2]
  {
    var b0: int := b[0];
    var b1: int := if |b| > 1 then b[1] else 0;
    var b2: int := if |b| > 2 then b[2] else 0;
    x0, x1, x2, x3 := b0 / 4, (b0 % 4) * 16 + b1 / 16, (b1 % 16) * 4 + b2 / 64, b2 % 64;
    BitsRejoin(b0, b1, b2);
  }

  lemma DecodeOne(a: Alphabet, x0: int, x1: int)
    requires 0 <= x0 < 64 && 0 <= x1 < 64
    ensures DecodeGroup(a, [Digit(a, x0), Digit(a, x1), '=', '='], true) ==
      if x1 % 16 == 0 then Some([x0 * 4 + x1 / 16]) else None
  {
    DigitValueOfDigit(a, x0);
    DigitValueOfDigit(a, x1);
  }

  lemma DecodeTwo(a: Alphabet, x0: int, x1: int, x2: int)
    requires 0 <= x0 < 64 && 0 <= x1 < 64 && 0 <= x2 < 64
    ensures DecodeGroup(a, [Digit(a, x0), Digit(a, x1), Digit(a, x2), '='], true) ==
      if x2 % 4 == 0 then Some([x0 * 4 + x1 / 16, (x1 % 16) * 16 + x2 / 4]) else None
  {
    DigitValueOfDigit(a, x0);
    DigitValueOfDigit(a, x1);
    DigitValueOfDigit(a, x2);
    assert DigitValue(a, '=') == None;
  }

  lemma DecodeThree(a: Alphabet, x0: int, x1: int, x2: int, x3: int, last: bool)
    requires 0 <= x0 < 64 && 0 <= x1 < 64 && 0 <= x2 < 64 && 0 <= x3 < 64
    ensures DecodeGroup(a, [Digit(a, x0), Digit(a, x1), Digit(a, x2), Digit(a, x3)], last) ==
      Some([x0 * 4 + x1 / 16, (x1 % 16) * 16 + x2 / 4, (x2 % 4) * 64 + x3])
  {
    DigitValueOfDigit(a, x0);
    DigitValueOfDigit(a, x1);
    DigitValueOfDigit(a, x2);
    DigitValueOfDigit(a, x3);
    assert DigitValue(a, '=') == None;
  }

  /** The four six-bit digits of three bytes give the bytes back, and a
      missing byte leaves the low bits of the digit before it clear. */
  lemma BitsRejoin(b0: int, b1: int, b2: int)
    requires 0 <= b0 < 256 && 0 <= b1 < 256 && 0 <= b2 < 256
    ensures var x0, x1, x2, x3 := b0 / 4, (b0 % 4) * 16 + b1 / 16, (b1 % 16) * 4 + b2 / 64, b2 % 64;
      x0 * 4 + x1 / 16 == b0 && (x1 % 16) * 16 + x2 / 4 == b1 && (x2 % 4) * 64 + x3 == b2 &&
      (b1 == 0 && b2 == 0 ==> x1 % 16 == 0) && (b2 == 0 ==> x2 % 4 == 0)
  {
  }

  /** Decoding undoes encoding, for either alphabet. */
  lemma {:induction false} DecodeEncode(a: Alphabet, b: seq<Byte>)
    ensures Decode(a, Encode(a, b)) == Some(b)
    decreases |b|
  {
    var e := Encode(a, b);
    if 0 < |b| < 3 {
      GroupRoundTrip(a, b, true);
      assert e[..4] == e;
      assert e[4..] == "";
      assert Decode(a, e[4..]) == Some([]);
      assert b + [] == b;
    } else if |b| >= 3 {
      GroupRoundTrip(a, b[..3], |b| == 3);
      assert e[..4] == Group(a, b[..3]);
      assert e[4..] == Encode(a, b[3..]);
      DecodeEncode(a, b[3..]);
      assert b[..3] + b[3..] == b;
    }
  }

  /** The characters an encoding is made of: digits, then `=` at the end. */
  lemma {:induction false} EncodeAlphabet(a: Alphabet, b: seq<Byte>)
    ensures forall i :: 0 <= i < |Encode(a, b)| - Padding(|b|) ==> IsDigitOf(a, Encode(a, b)[i])
    ensures forall i :: |Encode(a, b)| - Padding(|b|) <= i < |Encode(a, b)| ==> Encode(a, b)[i] == '='
    decreases |b|
  {
    if |b| >= 3 {
      EncodeAlphabet(a, b[3..]);
      assert Padding(|b|) == Padding(|b[3..]|);
      ShapeAppend(a, Group(a, b[..3]), Encode(a, b[3..]), Padding(|b|));
    } else if |b| > 0 {
      assert Encode(a, b) == Group(a, b);
      assert Padding(|b|) == 3 - |b|;
    }
  }

  /** A full group in front keeps the shape of what follows it. */
  lemma ShapeAppend(a: Alphabet, g: string, rest: string, p: nat)
    requires |g| == 4 && forall i :: 0 <= i < 4 ==> IsDigitOf(a, g[i])
    requires p <= 2 && (p > 0 ==> |rest| >= 4)
    requires forall i :: 0 <= i < |rest| - p ==> IsDigitOf(a, rest[i])
    requires forall i :: |rest| - p <= i < |rest| ==> rest[i] == '='
    ensures forall i :: 0 <= i < |g + rest| - p ==> IsDigitOf(a, (g + rest)[i])
    ensures forall i :: |g + rest| - p <= i < |g + rest| ==> (g + rest)[i] == '='
  {
    var e := g + rest;
    forall i | 0 <= i < |e| - p ensures IsDigitOf(a, e[i]) {
      if i < 4 { assert e[i] == g[i]; } else { assert e[i] == rest[i - 4]; }
    }
    forall i | |e| - p <= i < |e| ensures e[i] == '=' {
      assert e[i] == rest[i - 4];
    }
  }

  /** The number of `=` that end the encoding of `n` bytes. */
  function Padding(n: nat): nat { (3 - n % 3) % 3 }

  /** `String#delete('=')`. */
  function DeletePadding(s: string): (r: string)
    ensures '=' !in r
    ensures |r| <= |s|
  {
    if |s| == 0 then ""
    else (if s[0] == '=' then "" else [s[0]]) + DeletePadding(s[1..])
  }

  lemma {:induction false} DeletePaddingFree(s: string)
    requires '=' !in s
    ensures DeletePadding(s) == s
  {
    if |s| > 0 {
      DeletePaddingFree(s[1..]);
      assert [s[0]] + s[1..] == s;
    }
  }

  lemma {:induction false} DeletePaddingAppend(s: string, t: string)
    ensures DeletePadding(s + t) == DeletePadding(s) + DeletePadding(t)
  {
    if |s| == 0 {
      assert s + t == t;
    } else {
      var h := if s[0] == '=' then "" else [s[0]];
      assert (s + t)[0] == s[0] && (s + t)[1..] == s[1..] + t;
      DeletePaddingAppend(s[1..], t);
      assert DeletePadding(s + t) == h + (DeletePadding(s[1..]) + DeletePadding(t));
      assert DeletePadding(s) == h + DeletePadding(s[1..]);
    }
  }

  lemma {:induction false} DeletePaddingAll(s: string)
    requires forall i :: 0 <= i < |s| ==> s[i] == '='
    ensures DeletePadding(s) == ""
  {
    if |s| > 0 {
      DeletePaddingAll(s[1..]);
    }
  }

  /** `=` followed by `k` more. */
  function Pads(k: nat): (r: string)
    ensures |r| == k && forall i :: 0 <= i < k ==> r[i] == '='
  {
    if k == 0 then "" else "=" + Pads(k - 1)
  }

  /** With the padding deleted, the encoding of `n` bytes has
      `ceil(4n/3)` characters, and putting the padding back restores it:
      nothing but the `=` are lost. */
  lemma UnpaddedEncoding(a: Alphabet, b: seq<Byte>)
    ensures var e := Encode(a, b); var u := DeletePadding(e);
      |u| == (4 * |b| + 2) / 3 && u + Pads(Padding(|b|)) == e
  {
    var e := Encode(a, b);
    var p := Padding(|b|);
    UnpaddedLength(|b|);
    EncodeAlphabet(a, b);
    forall i | 0 <= i < |e| - p ensures e[i] != '=' {
      DigitIsNotPad(a, e[i]);
    }
    PaddedTail(e, p);
  }

  lemma DigitIsNotPad(a: Alphabet, c: char)
    requires IsDigitOf(a, c)
    ensures c != '='
  {
    assert DigitValue(a, '=') == None;
  }

  /** A text made of `=`-free characters and then `p` of `=`. */
  lemma PaddedTail(e: string, p: nat)
    requires p <= |e|
    requires forall i :: 0 <= i < |e| - p ==> e[i] != '='
    requires forall i :: |e| - p <= i < |e| ==> e[i] == '='
    ensures DeletePadding(e) == e[..|e| - p] && e[..|e| - p] + Pads(p) == e
  {
    var k := |e| - p;
    assert e == e[..k] + e[k..];
    DeletePaddingFree(e[..k]);
    DeletePaddingAll(e[k..]);
    DeletePaddingAppend(e[..k], e[k..]);
    assert e[k..] == Pads(p);
  }

  lemma UnpaddedLength(n: nat)
    ensures 4 * ((n + 2) / 3) - Padding(n) == (4 * n + 2) / 3
  {
    var q := n / 3;
    assert n == 3 * q + n % 3;
    assert (n + 2) / 3 == q + (n % 3 + 2) / 3;
    assert (4 * n + 2) / 3 == 4 * q + (4 * (n % 3) + 2) / 3;
  }

  /** `Base64.strict_encode64` of a string's bytes. */
  function StrictEncode(s: string): string {
    Encode(Standard, Utf8.Encode(s))
  }
}
