/** The proof-key helpers of lib/airwallex_ruby/helpers.rb: a random code
    verifier over the unreserved characters and its S256 code challenge, as
    section 4 of RFC 7636 describes them. The random numbers and the
    SHA-256 digest come from outside the model and are parameters here. */
module Pkce {
  import opened Text
  import opened Utf8
  import Base64
  import opened Ruby

  /** `UNRESERVED_CHARS`: `A`-`Z`, `a`-`z`, `0`-`9`, then `-`, `.`, `_`, `~`. */
  const UnreservedChars: string :=
    seq(26, i requires 0 <= i < 26 => ('A' as int + i) as char)
    + seq(26, i requires 0 <= i < 26 => ('a' as int + i) as char)
    + seq(10, i requires 0 <= i < 10 => ('0' as int + i) as char)
    + "-._~"

  /** The position of an unreserved character in `UnreservedChars`. */
  function IndexOf(c: char): (i: int)
    requires IsUnreserved(c)
    ensures 0 <= i < 66
  {
    if IsUpper(c) then c as int - 'A' as int
    else if IsLower(c) then c as int - 'a' as int + 26
    else if IsDigit(c) then c as int - '0' as int + 52
    else if c == '-' then 62
    else if c == '.' then 63
    else if c == '_' then 64
    else 65
  }

  /** `UNRESERVED_CHARS` holds 66 distinct characters, and they are exactly
      the unreserved characters of section 2.3 of RFC 3986. */
  lemma UnreservedCharsExact()
    ensures |UnreservedChars| == 66
    ensures forall i :: 0 <= i < 66 ==> IsUnreserved(UnreservedChars[i]) && IndexOf(UnreservedChars[i]) == i
    ensures forall c :: IsUnreserved(c) ==> UnreservedChars[IndexOf(c)] == c
  {
    var u := UnreservedChars;
    assert u[62] == '-' && u[63] == '.' && u[64] == '_' && u[65] == '~';
    assert forall i :: 0 <= i < 26 ==> u[i] == ('A' as int + i) as char;
    assert forall i :: 26 <= i < 52 ==> u[i] == ('a' as int + i - 26) as char;
    assert forall i :: 52 <= i < 62 ==> u[i] == ('0' as int + i - 52) as char;
  }

  /** `generate_code_verifier`: `lengthDraw` is the value of
      `SecureRandom.random_number(86)` and `charDraws` are the values of
      `SecureRandom.random_number(66)` that pick each character. */
  function CodeVerifier(lengthDraw: int, charDraws: seq<int>): (v: string)
    requires 0 <= lengthDraw < 86
    requires |charDraws| == lengthDraw + 43
    requires forall i :: 0 <= i < |charDraws| ==> 0 <= charDraws[i] < 66
    ensures |v| == |charDraws| && 43 <= |v| <= 128
    ensures forall i :: 0 <= i < |v| ==> IsUnreserved(v[i])
    ensures forall i :: 0 <= i < |v| ==> IndexOf(v[i]) == charDraws[i]
  {
    UnreservedCharsExact();
    seq(lengthDraw + 43, i requires 0 <= i < lengthDraw + 43 => UnreservedChars[charDraws[i]])
  }

  /** The draws that make `CodeVerifier` produce `v`. */
  function DrawsFor(v: string): seq<int>
    requires forall i :: 0 <= i < |v| ==> IsUnreserved(v[i])
  {
    seq(|v|, i requires 0 <= i < |v| => IndexOf(v[i]))
  }

  /** Every code verifier that section 4.1 of RFC 7636 allows (43 to 128
      unreserved characters) is one that `generate_code_verifier` can
      return. The draws that produce it are unique, since `CodeVerifier`
      determines each draw from its character. */
  lemma {:induction false} CodeVerifierReachesAll(v: string)
    requires 43 <= |v| <= 128
    requires forall i :: 0 <= i < |v| ==> IsUnreserved(v[i])
    ensures CodeVerifier(|v| - 43, DrawsFor(v)) == v
  {
    UnreservedCharsExact();
    var r := CodeVerifier(|v| - 43, DrawsFor(v));
    forall i | 0 <= i < |v| ensures r[i] == v[i] {
      assert r[i] == UnreservedChars[IndexOf(v[i])];
    }
  }

  /** `Base64.urlsafe_encode64(digest).delete('=')`. */
  function Challenge(digest: seq<Byte>): (c: string)
    ensures '=' !in c
    ensures forall i :: 0 <= i < |c| ==> Base64.IsDigitOf(Base64.UrlSafe, c[i])
  {
    var e := Base64.Encode(Base64.UrlSafe, digest);
    Base64.EncodeAlphabet(Base64.UrlSafe, digest);
    Base64.UnpaddedEncoding(Base64.UrlSafe, digest);
    var u := Base64.DeletePadding(e);
    assert u == e[..|u|];
    u
  }

  /** A SHA-256 digest is 32 bytes, so the challenge has 43 characters; and
      the digest can be read back from it by restoring the padding. */
  lemma ChallengeOfDigest(digest: seq<Byte>)
    ensures |digest| == 32 ==> |Challenge(digest)| == 43
    ensures Base64.Decode(Base64.UrlSafe, Challenge(digest) + Base64.Pads(Base64.Padding(|digest|))) == Some(digest)
  {
    Base64.UnpaddedEncoding(Base64.UrlSafe, digest);
    Base64.DecodeEncode(Base64.UrlSafe, digest);
  }

  /** `generate_code_challenge`: a fresh verifier, hashed by `sha256` and
      encoded. The verifier itself is not returned. */
  function CodeChallenge(lengthDraw: int, charDraws: seq<int>, sha256: seq<Byte> -> seq<Byte>): (c: string)
    requires 0 <= lengthDraw < 86
    requires |charDraws| == lengthDraw + 43
    requires forall i :: 0 <= i < |charDraws| ==> 0 <= charDraws[i] < 66
    ensures '=' !in c
    ensures var d := sha256(Utf8.Encode(CodeVerifier(lengthDraw, charDraws)));
      Base64.Decode(Base64.UrlSafe, c + Base64.Pads(Base64.Padding(|d|))) == Some(d)
  {
    ChallengeOfDigest(sha256(Utf8.Encode(CodeVerifier(lengthDraw, charDraws))));
    Challenge(sha256(Utf8.Encode(CodeVerifier(lengthDraw, charDraws))))
  }
}
