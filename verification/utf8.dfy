/** Ruby strings here are UTF-8: the byte view of a string is what
    `Base64` encodes and what `ERB::Util.url_encode` escapes. */
module Utf8 {
  import opened Ruby

  type Byte = b: int | 0 <= b < 256

  /** The UTF-8 form of one Unicode scalar value (section 3 of RFC 3629). */
  function EncodeChar(c: char): (r: seq<Byte>)
    ensures 1 <= |r| <= 4
    ensures |r| == 1 <==> (c as int) < 0x80
    ensures |r| == 1 ==> r[0] == c as int
    ensures |r| > 1 ==> r[0] >= 0xC0 && forall i :: 1 <= i < |r| ==> 0x80 <= r[i] < 0xC0
  {
    var n := c as int;
    if n < 0x80 then [n]
    else if n < 0x800 then [0xC0 + n / 64, 0x80 + n % 64]
    else if n < 0x10000 then [0xE0 + n / 4096, 0x80 + (n / 64) % 64, 0x80 + n % 64]
    else [0xF0 + n / 262144, 0x80 + (n / 4096) % 64, 0x80 + (n / 64) % 64, 0x80 + n % 64]
  }

  function Encode(s: string): (r: seq<Byte>)
    ensures |s| <= |r| <= 4 * |s|
  {
    if |s| == 0 then [] else EncodeChar(s[0]) + Encode(s[1..])
  }

  predicate IsAscii(s: string) {
    forall i :: 0 <= i < |s| ==> (s[i] as int) < 0x80
  }

  /** An ASCII string is its own byte sequence. */
  lemma {:induction false} EncodeAscii(s: string)
    requires IsAscii(s)
    ensures |Encode(s)| == |s|
    ensures forall i :: 0 <= i < |s| ==> Encode(s)[i] == s[i] as int
  {
    if |s| > 0 {
      EncodeAscii(s[1..]);
      assert forall i :: 1 <= i < |s| ==> Encode(s)[i] == Encode(s[1..])[i - 1];
    }
  }

  lemma {:induction false} EncodeAppend(a: string, b: string)
    ensures Encode(a + b) == Encode(a) + Encode(b)
  {
    if |a| == 0 {
      assert a + b == b;
    } else {
      assert (a + b)[1..] == a[1..] + b;
      EncodeAppend(a[1..], b);
    }
  }

  predicate IsContinuation(b: Byte) { 0x80 <= b < 0xC0 }

  /** The number of bytes a sequence starting with `lead` occupies, or 0
      when `lead` cannot start one. */
  function SequenceLength(lead: Byte): nat {
    if lead < 0x80 then 1
    else if lead < 0xC0 then 0
    else if lead < 0xE0 then 2
    else if lead < 0xF0 then 3
    else if lead < 0xF8 then 4
    else 0
  }

  /** The scalar value that a well-formed sequence of `k` bytes denotes. */
  function ScalarOf(bs: seq<Byte>, k: nat): int
    requires 1 <= k <= 4 && k <= |bs|
  {
    if k == 1 then bs[0]
    else if k == 2 then (bs[0] as int - 0xC0) * 64 + Low(bs[1])
    else if k == 3 then (bs[0] as int - 0xE0) * 4096 + Low(bs[1]) * 64 + Low(bs[2])
    else (bs[0] as int - 0xF0) * 262144 + Low(bs[1]) * 4096 + Low(bs[2]) * 64 + Low(bs[3])
  }

  /** The six payload bits of a continuation byte. */
  function Low(b: Byte): int { b as int - 0x80 }

  predicate IsScalar(n: int) { 0 <= n < 0xD800 || 0xE000 <= n < 0x11_0000 }

  /** Reads UTF-8 back into characters; `None` for bytes that are not UTF-8. */
  function Decode(bs: seq<Byte>): Option<string>
    decreases |bs|
  {
    if |bs| == 0 then Some("")
    else
      var k := SequenceLength(bs[0]);
      if k == 0 || |bs| < k || exists i :: 1 <= i < k && !IsContinuation(bs[i]) then None
      else
        var n := ScalarOf(bs, k);
        if !IsScalar(n) then None
        else match Decode(bs[k..])
          case None => None
          case Some(rest) => Some([n as char] + rest)
  }

  lemma EncodeCharDecodes(c: char, tail: seq<Byte>)
    ensures var e := EncodeChar(c);
      SequenceLength(e[0]) == |e| && ScalarOf(e + tail, |e|) == c as int
      && forall i :: 1 <= i < |e| ==> IsContinuation((e + tail)[i])
  {
    var n := c as int;
    if 0x80 <= n < 0x800 {
      TwoBytes(n, tail);
    } else if 0x800 <= n < 0x10000 {
      ThreeBytes(n, tail);
    } else if 0x10000 <= n {
      FourBytes(n, tail);
    }
  }

  lemma TwoBytes(n: int, tail: seq<Byte>)
    requires 0x80 <= n < 0x800
    ensures var e: seq<Byte> := [0xC0 + n / 64, 0x80 + n % 64];
      SequenceLength(e[0]) == 2 && ScalarOf(e + tail, 2) == n
  {
    var e: seq<Byte> := [0xC0 + n / 64, 0x80 + n % 64];
    assert (e + tail)[0] == e[0] && (e + tail)[1] == e[1];
  }

  lemma ThreeBytes(n: int, tail: seq<Byte>)
    requires 0x800 <= n < 0x10000
    ensures var e: seq<Byte> := [0xE0 + n / 4096, 0x80 + (n / 64) % 64, 0x80 + n % 64];
      SequenceLength(e[0]) == 3 && ScalarOf(e + tail, 3) == n
  {
    var e: seq<Byte> := [0xE0 + n / 4096, 0x80 + (n / 64) % 64, 0x80 + n % 64];
    var q := n / 64;
    assert n == q * 64 + n % 64;
    assert q == (q / 64) * 64 + q % 64;
    assert q / 64 == n / 4096;
    assert (e + tail)[0] == e[0] && (e + tail)[1] == e[1] && (e + tail)[2] == e[2];
  }

  lemma FourBytes(n: int, tail: seq<Byte>)
    requires 0x10000 <= n < 0x11_0000
    ensures var e: seq<Byte> := [0xF0 + n / 262144, 0x80 + (n / 4096) % 64, 0x80 + (n / 64) % 64, 0x80 + n % 64];
      SequenceLength(e[0]) == 4 && ScalarOf(e + tail, 4) == n
  {
    var e: seq<Byte> := [0xF0 + n / 262144, 0x80 + (n / 4096) % 64, 0x80 + (n / 64) % 64, 0x80 + n % 64];
    var q := n / 64;
    var p := q / 64;
    assert n == q * 64 + n % 64;
    assert q == p * 64 + q % 64;
    assert p == (p / 64) * 64 + p % 64;
    assert p == n / 4096 && p / 64 == n / 262144;
    assert (e + tail)[0] == e[0] && (e + tail)[1] == e[1] && (e + tail)[2] == e[2] && (e + tail)[3] == e[3];
  }

  /** Decoding undoes encoding. */
  lemma {:induction false} DecodeEncode(s: string)
    ensures Decode(Encode(s)) == Some(s)
  {
    if |s| > 0 {
      var e := EncodeChar(s[0]);
      var tail := Encode(s[1..]);
      EncodeCharDecodes(s[0], tail);
      assert Encode(s) == e + tail;
      assert (e + tail)[|e|..] == tail;
      DecodeEncode(s[1..]);
      assert [s[0]] + s[1..] == s;
    }
  }
}
