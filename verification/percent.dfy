/** `ERB::Util.url_encode`: every byte of the UTF-8 form of a string that
    is not an unreserved character (section 2.3 of RFC 3986) is written as
    `%` and two upper-case hexadecimal digits, as section 2.1 of RFC 3986
    describes. */
module Percent {
  import opened Ruby
  import opened Text
  import opened Utf8

  function HexDigit(v: int): (c: char)
    requires 0 <= v < 16
    ensures IsDigit(c) || 'A' <= c <= 'F'
  {
    if v < 10 then ('0' as int + v) as char else ('A' as int + v - 10) as char
  }

  function HexValue(c: char): Option<int> {
    if IsDigit(c) then Some(c as int - '0' as int)
    else if 'A' <= c <= 'F' then Some(c as int - 'A' as int + 10)
    else if 'a' <= c <= 'f' then Some(c as int - 'a' as int + 10)
    else None
  }

  /** A byte that stands for itself in the output. */
  predicate Kept(b: Byte) { b < 0x80 && IsUnreserved(b as char) }

  function EncodeByte(b: Byte): (r: string)
    ensures Kept(b) ==> r == [b as char]
    ensures !Kept(b) ==> |r| == 3 && r[0] == '%'
  {
    if Kept(b) then [b as char] else ['%', HexDigit(b / 16), HexDigit(b % 16)]
  }

  function EncodeBytes(bs: seq<Byte>): (r: string)
    ensures |bs| <= |r| <= 3 * |bs|
  {
    if |bs| == 0 then "" else EncodeByte(bs[0]) + EncodeBytes(bs[1..])
  }

  /** `ERB::Util.url_encode(s)`. */
  function UrlEncode(s: string): string {
    EncodeBytes(Utf8.Encode(s))
  }

  /** A character `url_encode` can emit: an unreserved one, `%`, or an
      upper-case hexadecimal digit. */
  predicate Emitted(c: char) { IsUnreserved(c) || c == '%' }

  lemma {:induction false} EncodeBytesEmits(bs: seq<Byte>)
    ensures forall i :: 0 <= i < |EncodeBytes(bs)| ==> Emitted(EncodeBytes(bs)[i])
  {
    if |bs| > 0 {
      EncodeBytesEmits(bs[1..]);
      var h := EncodeByte(bs[0]);
      assert forall i :: 0 <= i < |h| ==> Emitted(h[i]);
      assert forall i :: |h| <= i < |EncodeBytes(bs)| ==> EncodeBytes(bs)[i] == EncodeBytes(bs[1..])[i - |h|];
    }
  }

  /** The output never holds `&`, `=` or any other delimiter of a query
      string, so it can be placed in one as a value. */
  lemma UrlEncodeSafe(s: string)
    ensures forall i :: 0 <= i < |UrlEncode(s)| ==> Emitted(UrlEncode(s)[i])
    ensures '&' !in UrlEncode(s) && '=' !in UrlEncode(s)
  {
    EncodeBytesEmits(Utf8.Encode(s));
  }

  /** Reads `%XX` escapes back into bytes; any other character must be an
      ASCII one and stands for its own code. */
  function DecodeBytes(t: string): Option<seq<Byte>>
    decreases |t|
  {
    if |t| == 0 then Some([])
    else if t[0] == '%' then
      if |t| < 3 then None
      else match (HexValue(t[1]), HexValue(t[2]))
        case (Some(h), Some(l)) =>
          (match DecodeBytes(t[3..])
           case None => None
           case Some(rest) => Some([h * 16 + l] + rest))
        case _ => None
    else if (t[0] as int) < 0x80 then
      match DecodeBytes(t[1..])
      case None => None
      case Some(rest) => Some([t[0] as int] + rest)
    else None
  }

  lemma EncodeByteDecodes(b: Byte, t: string)
    ensures var e := EncodeByte(b);
      DecodeBytes(e + t) == (match DecodeBytes(t) case None => None case Some(rest) => Some([b] + rest))
  {
    var e := EncodeByte(b);
    assert (e + t)[|e|..] == t;
    if !Kept(b) {
      var h, l := b / 16, b % 16;
      assert HexValue(HexDigit(h)) == Some(h);
      assert HexValue(HexDigit(l)) == Some(l);
      assert (e + t)[1] == HexDigit(h) && (e + t)[2] == HexDigit(l);
    }
  }

  /** Decoding the escapes gives back the UTF-8 bytes of the input. */
  lemma {:induction false} DecodeEncodeBytes(bs: seq<Byte>)
    ensures DecodeBytes(EncodeBytes(bs)) == Some(bs)
  {
    if |bs| > 0 {
      DecodeEncodeBytes(bs[1..]);
      EncodeByteDecodes(bs[0], EncodeBytes(bs[1..]));
      assert [bs[0]] + bs[1..] == bs;
    }
  }

  /** `url_encode` loses nothing: the escapes decode to the UTF-8 bytes,
      and those decode to the original string. */
  lemma UrlEncodeRoundTrip(s: string)
    ensures DecodeBytes(UrlEncode(s)) == Some(Utf8.Encode(s))
    ensures Utf8.Decode(Utf8.Encode(s)) == Some(s)
  {
    DecodeEncodeBytes(Utf8.Encode(s));
    Utf8.DecodeEncode(s);
  }

  /** A string made only of unreserved characters is left as it is. */
  lemma {:induction false} UrlEncodeUnreserved(s: string)
    requires forall i :: 0 <= i < |s| ==> IsUnreserved(s[i])
    ensures UrlEncode(s) == s
  {
    assert IsAscii(s);
    EncodeAscii(s);
    KeptBytes(s, Utf8.Encode(s));
  }

  lemma {:induction false} KeptBytes(s: string, bs: seq<Byte>)
    requires |bs| == |s|
    requires forall i :: 0 <= i < |s| ==> IsUnreserved(s[i]) && bs[i] == s[i] as int
    ensures EncodeBytes(bs) == s
  {
    if |s| > 0 {
      KeptBytes(s[1..], bs[1..]);
      assert (bs[0] as char) == s[0];
      assert [s[0]] + s[1..] == s;
    }
  }
}
