/** Product links (linkProducto): the store's base URL followed by the
    product code passed through encodeURIComponent, which keeps the
    unreserved characters and writes every other character as the
    percent-escaped bytes of its UTF-8 encoding (section 2.1 of RFC 3986,
    upper-case hexadecimal digits). */
module Links {
  import opened Options
  import opened Strings

  const BaseUrl := "https://www.novacenter.ar/tienda/?producto="

  type Byte = b: int | 0 <= b < 256

  /** The characters encodeURIComponent copies unchanged. */
  predicate IsUnreserved(c: char) {
    IsUpper(c) || IsLower(c) || IsDigit(c) || c in "-_.!~*'()"
  }

  /** The UTF-8 encoding of one code point (shortest form). */
  function Utf8(c: char): (bs: seq<Byte>)
    ensures 1 <= |bs| <= 4
  {
    var cp := c as int;
    if cp < 0x80 then [cp]
    else if cp < 0x800 then [0xC0 + cp / 64, 0x80 + cp % 64]
    else if cp < 0x10000 then [0xE0 + cp / 4096, 0x80 + (cp / 64) % 64, 0x80 + cp % 64]
    else [0xF0 + cp / 262144, 0x80 + (cp / 4096) % 64, 0x80 + (cp / 64) % 64, 0x80 + cp % 64]
  }

  function HexDigit(d: int): (c: char)
    requires 0 <= d < 16
    ensures IsDigit(c) || 'A' <= c <= 'F'
  {
    if d < 10 then ('0' as int + d) as char else ('A' as int + d - 10) as char
  }

  /** Each byte as '%' and two upper-case hexadecimal digits. */
  function PercentEncode(bs: seq<Byte>): (r: string)
    ensures |r| == 3 * |bs|
  {
    if bs == [] then "" else ['%', HexDigit(bs[0] / 16), HexDigit(bs[0] % 16)] + PercentEncode(bs[1..])
  }

  function EncodeChar(c: char): (r: string)
    ensures 1 <= |r| <= 12
  {
    if IsUnreserved(c) then [c] else PercentEncode(Utf8(c))
  }

  /** encodeURIComponent(s): every character becomes one to twelve
      characters (itself, or up to four escaped bytes). */
  function EncodeUriComponent(s: string): (r: string)
    ensures |s| <= |r| <= 12 * |s|
  {
    if s == [] then "" else EncodeChar(s[0]) + EncodeUriComponent(s[1..])
  }

  /** linkProducto(codigo) */
  function ProductLink(code: string): (r: string)
    ensures StartsWith(r, BaseUrl)
  {
    BaseUrl + EncodeUriComponent(code)
  }

  // --------------------------------------------------------------- decoding

  function HexValue(c: char): Option<int> {
    if IsDigit(c) then Some(c as int - '0' as int)
    else if 'A' <= c <= 'F' then Some(c as int - 'A' as int + 10)
    else if 'a' <= c <= 'f' then Some(c as int - 'a' as int + 10)
    else None
  }

  /** The byte written as "%XY" at position i of s, if there is one. */
  function ByteAt(s: string, i: nat): (r: Option<Byte>)
  {
    if i + 3 <= |s| && s[i] == '%' && HexValue(s[i + 1]).Some? && HexValue(s[i + 2]).Some? then
      Some(16 * HexValue(s[i + 1]).value + HexValue(s[i + 2]).value)
    else None
  }

  predicate IsContinuation(b: Byte) { 0x80 <= b < 0xC0 }

  predicate IsScalar(cp: int) { 0 <= cp < 0xD800 || 0xE000 <= cp < 0x110000 }

  /** The character whose percent-escaped UTF-8 bytes start s, and how many
      characters of s they take; None for anything decodeURIComponent
      rejects (a bad escape, a bad sequence, an overlong form, a
      surrogate). */
  function DecodeEscaped(s: string): (r: Option<(char, nat)>)
    ensures r.Some? ==> 3 <= r.value.1 <= |s|
  {
    var b0 := ByteAt(s, 0);
    if b0.None? then None
    else if b0.value < 0x80 then Some((b0.value as char, 3))
    else if 0xC0 <= b0.value < 0xE0 then
      var b1 := ByteAt(s, 3);
      if b1.None? || !IsContinuation(b1.value) then None
      else
        var cp := (b0.value - 0xC0) * 64 + (b1.value - 0x80);
        if cp < 0x80 then None else Some((cp as char, 6))
    else if 0xE0 <= b0.value < 0xF0 then
      var b1 := ByteAt(s, 3);
      var b2 := ByteAt(s, 6);
      if b1.None? || b2.None? || !IsContinuation(b1.value) || !IsContinuation(b2.value) then None
      else
        var cp := (b0.value - 0xE0) * 4096 + (b1.value - 0x80) * 64 + (b2.value - 0x80);
        if cp < 0x800 || !IsScalar(cp) then None else Some((cp as char, 9))
    else if 0xF0 <= b0.value < 0xF8 then
      var b1 := ByteAt(s, 3);
      var b2 := ByteAt(s, 6);
      var b3 := ByteAt(s, 9);
      if b1.None? || b2.None? || b3.None? || !IsContinuation(b1.value) || !IsContinuation(b2.value) || !IsContinuation(b3.value) then None
      else
        var cp := (b0.value - 0xF0) * 262144 + (b1.value - 0x80) * 4096 + (b2.value - 0x80) * 64 + (b3.value - 0x80);
        if cp < 0x10000 || !IsScalar(cp) then None else Some((cp as char, 12))
    else None
  }

  /** decodeURIComponent(s), None where it throws a URIError. */
  function DecodeUriComponent(s: string): Option<string>
    decreases |s|
  {
    if s == [] then Some("")
    else if s[0] != '%' then
      var rest := DecodeUriComponent(s[1..]);
      if rest.None? then None else Some([s[0]] + rest.value)
    else
      var d := DecodeEscaped(s);
      if d.None? then None
      else
        var rest := DecodeUriComponent(s[d.value.1..]);
        if rest.None? then None else Some([d.value.0] + rest.value)
  }

  // ---------------------------------------------------------------- proofs

  lemma HexRoundTrip(d: int)
    requires 0 <= d < 16
    ensures HexValue(HexDigit(d)) == Some(d)
  {
  }

  lemma ByteAtEncoded(bs: seq<Byte>, k: nat, rest: string)
    requires k < |bs|
    ensures ByteAt(PercentEncode(bs) + rest, 3 * k) == Some(bs[k])
  {
    var s := PercentEncode(bs) + rest;
    PercentEncodeAt(bs, k);
    HexRoundTrip(bs[k] / 16);
    HexRoundTrip(bs[k] % 16);
    assert s[3 * k] == '%' && s[3 * k + 1] == HexDigit(bs[k] / 16) && s[3 * k + 2] == HexDigit(bs[k] % 16);
  }

  lemma {:induction false} PercentEncodeAt(bs: seq<Byte>, k: nat)
    requires k < |bs|
    ensures PercentEncode(bs)[3 * k] == '%'
    ensures PercentEncode(bs)[3 * k + 1] == HexDigit(bs[k] / 16)
    ensures PercentEncode(bs)[3 * k + 2] == HexDigit(bs[k] % 16)
  {
    if k > 0 {
      PercentEncodeAt(bs[1..], k - 1);
    }
  }

  lemma Utf8Two(cp: int)
    requires 0x80 <= cp < 0x800
    ensures 0xC0 <= 0xC0 + cp / 64 < 0xE0
    ensures (cp / 64) * 64 + cp % 64 == cp
  {
  }

  lemma Utf8Three(cp: int)
    requires 0x800 <= cp < 0x10000
    ensures 0 <= cp / 4096 < 16
    ensures (cp / 4096) * 4096 + ((cp / 64) % 64) * 64 + cp % 64 == cp
  {
    var q := cp / 64;
    assert cp == q * 64 + cp % 64;
    assert q == (q / 64) * 64 + q % 64;
    assert q / 64 == cp / 4096;
  }

  lemma Utf8Four(cp: int)
    requires 0x10000 <= cp < 0x110000
    ensures 0 <= cp / 262144 < 8
    ensures (cp / 262144) * 262144 + ((cp / 4096) % 64) * 4096 + ((cp / 64) % 64) * 64 + cp % 64 == cp
  {
    var q := cp / 64;
    var q2 := q / 64;
    assert cp == q * 64 + cp % 64;
    assert q == q2 * 64 + q % 64;
    assert q2 == (q2 / 64) * 64 + q2 % 64;
    assert q2 == cp / 4096;
    assert q2 / 64 == cp / 262144;
  }

  lemma DecodeEncodedTwo(c: char, rest: string)
    requires 0x80 <= c as int < 0x800
    ensures DecodeEscaped(PercentEncode(Utf8(c)) + rest) == Some((c, 6))
  {
    Utf8Two(c as int);
    ByteAtEncoded(Utf8(c), 0, rest);
    ByteAtEncoded(Utf8(c), 1, rest);
  }

  lemma DecodeEncodedThree(c: char, rest: string)
    requires 0x800 <= c as int < 0x10000
    ensures DecodeEscaped(PercentEncode(Utf8(c)) + rest) == Some((c, 9))
  {
    Utf8Three(c as int);
    ByteAtEncoded(Utf8(c), 0, rest);
    ByteAtEncoded(Utf8(c), 1, rest);
    ByteAtEncoded(Utf8(c), 2, rest);
  }

  lemma DecodeEncodedFour(c: char, rest: string)
    requires 0x10000 <= c as int
    ensures DecodeEscaped(PercentEncode(Utf8(c)) + rest) == Some((c, 12))
  {
    Utf8Four(c as int);
    ByteAtEncoded(Utf8(c), 0, rest);
    ByteAtEncoded(Utf8(c), 1, rest);
    ByteAtEncoded(Utf8(c), 2, rest);
    ByteAtEncoded(Utf8(c), 3, rest);
  }

  /** The escapes written for one character decode back to it. */
  lemma DecodeEncodedChar(c: char, rest: string)
    requires !IsUnreserved(c)
    ensures DecodeEscaped(PercentEncode(Utf8(c)) + rest) == Some((c, |PercentEncode(Utf8(c))|))
  {
    var cp := c as int;
    if cp < 0x80 {
      ByteAtEncoded(Utf8(c), 0, rest);
    } else if cp < 0x800 {
      DecodeEncodedTwo(c, rest);
    } else if cp < 0x10000 {
      DecodeEncodedThree(c, rest);
    } else {
      DecodeEncodedFour(c, rest);
    }
  }

  /** decodeURIComponent undoes encodeURIComponent: the code is recovered
      from the link. */
  lemma {:induction false} DecodeEncode(s: string)
    ensures DecodeUriComponent(EncodeUriComponent(s)) == Some(s)
  {
    if s != [] {
      DecodeEncode(s[1..]);
      DecodeEncodedHead(s[0], EncodeUriComponent(s[1..]), s[1..]);
      assert [s[0]] + s[1..] == s;
    }
  }

  /** Decoding an encoded character followed by text that decodes gives
      the character followed by that text's decoding. */
  lemma DecodeEncodedHead(c: char, rest: string, tail: string)
    requires DecodeUriComponent(rest) == Some(tail)
    ensures DecodeUriComponent(EncodeChar(c) + rest) == Some([c] + tail)
  {
    var e := EncodeChar(c) + rest;
    if IsUnreserved(c) {
      assert e[1..] == rest;
    } else {
      var p := PercentEncode(Utf8(c));
      DecodeEncodedChar(c, rest);
      PercentEncodeAt(Utf8(c), 0);
      assert e[|p|..] == rest;
    }
  }

  /** Every character of an encoded string is unreserved, '%' or an
      upper-case hexadecimal digit. */
  lemma {:induction false} EncodedAlphabet(s: string)
    ensures forall i :: 0 <= i < |EncodeUriComponent(s)| ==>
      var c := EncodeUriComponent(s)[i]; IsUnreserved(c) || c == '%' || 'A' <= c <= 'F'
  {
    if s != [] {
      EncodedAlphabet(s[1..]);
      if !IsUnreserved(s[0]) {
        PercentAlphabet(Utf8(s[0]));
      }
    }
  }

  lemma {:induction false} PercentAlphabet(bs: seq<Byte>)
    ensures forall i :: 0 <= i < |PercentEncode(bs)| ==>
      var c := PercentEncode(bs)[i]; IsDigit(c) || c == '%' || 'A' <= c <= 'F'
  {
    if bs != [] {
      PercentAlphabet(bs[1..]);
    }
  }

  /** A code made only of unreserved characters appears in the link as it
      is. */
  lemma {:induction false} EncodeUnreserved(s: string)
    requires forall i :: 0 <= i < |s| ==> IsUnreserved(s[i])
    ensures EncodeUriComponent(s) == s
  {
    if s != [] {
      EncodeUnreserved(s[1..]);
      assert [s[0]] + s[1..] == s;
    }
  }

  /** The code can be read back from the product link. */
  lemma ProductLinkDecodes(code: string)
    ensures DecodeUriComponent(ProductLink(code)[|BaseUrl|..]) == Some(code)
  {
    assert ProductLink(code)[|BaseUrl|..] == EncodeUriComponent(code);
    DecodeEncode(code);
  }
}
