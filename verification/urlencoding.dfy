/** Percent-encoding as the `urlencoding::encode` function performs it: the
    text is taken as its UTF-8 bytes, and every byte outside the unreserved
    set of section 2.3 of RFC 3986 (ALPHA / DIGIT / "-" / "." / "_" / "~") is
    written as "%" followed by two upper-case hexadecimal digits (section 2.1
    of RFC 3986). A strict decoder is the partner that proves nothing is lost. */
module UrlEncoding {
  import opened Wrappers

  newtype byte = x: int | 0 <= x < 256

  // ---------------------------------------------------------------- UTF-8

  /** The UTF-8 encoding of one Unicode scalar value (1 to 4 bytes). */
  function Utf8(c: char): (r: seq<byte>)
    ensures 1 <= |r| <= 4
    ensures (c as int < 0x80) <==> |r| == 1
    ensures |r| == 1 ==> r[0] as int == c as int
    ensures |r| > 1 ==> forall i :: 0 <= i < |r| ==> r[i] >= 0x80
  {
    var n := c as int;
    if n < 0x80 then [n as byte]
    else if n < 0x800 then [(0xC0 + n / 64) as byte, (0x80 + n % 64) as byte]
    else if n < 0x10000 then
      [(0xE0 + n / 4096) as byte, (0x80 + (n / 64) % 64) as byte, (0x80 + n % 64) as byte]
    else
      [(0xF0 + n / 262144) as byte, (0x80 + (n / 4096) % 64) as byte,
       (0x80 + (n / 64) % 64) as byte, (0x80 + n % 64) as byte]
  }

  /** `str::as_bytes`: the UTF-8 encoding of a whole string. */
  function Utf8Str(s: string): (r: seq<byte>)
    ensures |r| >= |s|
    decreases |s|
  {
    if |s| == 0 then [] else Utf8(s[0]) + Utf8Str(s[1..])
  }

  // -------------------------------------------------------------- encode

  /** The unreserved characters of section 2.3 of RFC 3986, by code. */
  predicate IsUnreservedCode(n: int) {
    || ('0' as int <= n <= '9' as int)
    || ('A' as int <= n <= 'Z' as int)
    || ('a' as int <= n <= 'z' as int)
    || n == '-' as int || n == '.' as int || n == '_' as int || n == '~' as int
  }

  predicate IsUnreserved(c: char) {
    IsUnreservedCode(c as int)
  }

  function HexDigit(d: int): (r: char)
    requires 0 <= d < 16
  {
    if d < 10 then ('0' as int + d) as char else ('A' as int + d - 10) as char
  }

  predicate IsHexDigit(c: char) {
    ('0' <= c <= '9') || ('A' <= c <= 'F')
  }

  function HexValue(c: char): (r: int)
    requires IsHexDigit(c)
    ensures 0 <= r < 16
  {
    if c <= '9' then c as int - '0' as int else c as int - 'A' as int + 10
  }

  /** One byte: kept as its character when unreserved, escaped otherwise. */
  function EncodeByte(b: byte): (r: string)
    ensures IsUnreservedCode(b as int) ==> r == [b as int as char]
    ensures !IsUnreservedCode(b as int) ==>
              |r| == 3 && r[0] == '%' && IsHexDigit(r[1]) && IsHexDigit(r[2])
              && HexValue(r[1]) * 16 + HexValue(r[2]) == b as int
  {
    if IsUnreservedCode(b as int) then [b as int as char]
    else ['%', HexDigit(b as int / 16), HexDigit(b as int % 16)]
  }

  function EncodeBytes(bs: seq<byte>): string
    decreases |bs|
  {
    if |bs| == 0 then [] else EncodeByte(bs[0]) + EncodeBytes(bs[1..])
  }

  /** `urlencoding::encode`. */
  function Encode(s: string): string {
    EncodeBytes(Utf8Str(s))
  }

  // -------------------------------------------------------------- decode

  /** Strict percent-decoding: unreserved characters stand for themselves,
      "%XY" for the byte 0xXY, and anything else is rejected. */
  function DecodeBytes(s: string): Option<seq<byte>>
    decreases |s|
  {
    if |s| == 0 then Some([])
    else if IsUnreserved(s[0]) then
      match DecodeBytes(s[1..])
      case None => None
      case Some(rest) => Some([s[0] as int as byte] + rest)
    else if s[0] == '%' && |s| >= 3 && IsHexDigit(s[1]) && IsHexDigit(s[2]) then
      match DecodeBytes(s[3..])
      case None => None
      case Some(rest) => Some([(HexValue(s[1]) * 16 + HexValue(s[2])) as byte] + rest)
    else None
  }

  /** Decoding undoes encoding, for every byte string. */
  lemma {:induction false} DecodeEncodeBytes(bs: seq<byte>)
    ensures DecodeBytes(EncodeBytes(bs)) == Some(bs)
    decreases |bs|
  {
    if |bs| > 0 {
      var head := EncodeByte(bs[0]);
      var tail := EncodeBytes(bs[1..]);
      DecodeEncodeBytes(bs[1..]);
      var s := head + tail;
      assert EncodeBytes(bs) == s;
      if IsUnreservedCode(bs[0] as int) {
        assert s[0] == bs[0] as int as char && s[1..] == tail;
      } else {
        assert s[0] == '%' && s[1] == head[1] && s[2] == head[2];
        assert s[3..] == tail;
      }
      assert bs == [bs[0]] + bs[1..];
    }
  }

  /** The percent-encoding of a string decodes back to its UTF-8 bytes. */
  lemma DecodeEncode(s: string)
    ensures DecodeBytes(Encode(s)) == Some(Utf8Str(s))
  {
    DecodeEncodeBytes(Utf8Str(s));
  }

  /** Text made only of unreserved characters is left as it is. */
  lemma {:induction false} EncodeUnreserved(s: string)
    requires forall i :: 0 <= i < |s| ==> IsUnreserved(s[i])
    ensures Encode(s) == s
    decreases |s|
  {
    if |s| > 0 {
      EncodeUnreserved(s[1..]);
      assert Utf8(s[0]) == [s[0] as int as byte];
      assert Utf8Str(s) == [s[0] as int as byte] + Utf8Str(s[1..]);
      assert EncodeBytes(Utf8Str(s)) == EncodeByte(s[0] as int as byte) + EncodeBytes(Utf8Str(s[1..]));
      assert s == [s[0]] + s[1..];
    }
  }

  /** The output never holds a character that needs escaping in a URL. */
  lemma {:induction false} EncodeIsUrlSafe(bs: seq<byte>)
    ensures forall i :: 0 <= i < |EncodeBytes(bs)| ==>
              IsUnreserved(EncodeBytes(bs)[i]) || EncodeBytes(bs)[i] == '%' || IsHexDigit(EncodeBytes(bs)[i])
    decreases |bs|
  {
    if |bs| > 0 {
      EncodeIsUrlSafe(bs[1..]);
      var head := EncodeByte(bs[0]);
      var tail := EncodeBytes(bs[1..]);
      assert EncodeBytes(bs) == head + tail;
      forall i | 0 <= i < |head + tail|
        ensures IsUnreserved((head + tail)[i]) || (head + tail)[i] == '%' || IsHexDigit((head + tail)[i])
      {
        if i >= |head| {
          assert (head + tail)[i] == tail[i - |head|];
        }
      }
    }
  }

  /** The example from the launcher's tests: a blank becomes "%20". */
  lemma EncodeSpaceExample()
    ensures Encode("b c") == "b%20c"
  {
    assert Utf8Str("b c") == [98, 32, 99] by {
      assert Utf8Str("c") == [99];
      assert Utf8Str(" c") == [32, 99];
    }
    assert EncodeBytes([99]) == "c";
    assert EncodeBytes([32, 99]) == "%20" + "c";
    assert EncodeBytes([98, 32, 99]) == "b" + "%20c";
  }
}
