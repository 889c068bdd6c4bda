/**
 * The browser encoders the École Directe client is built on:
 *   - `encodeURIComponent` / `decodeURIComponent`: percent-encoding of the
 *     UTF-8 bytes of a string (section 2.1 of RFC 3986, with the unreserved
 *     set of ECMA-262);
 *   - `btoa` / `atob`: base64 (section 4 of RFC 4648) over Latin-1 strings,
 *     `atob` being the forgiving decoder of the HTML standard;
 *   - `TextEncoder` / `TextDecoder('utf-8')`: UTF-8 with replacement of
 *     malformed sequences and removal of a leading byte-order mark.
 * Dafny characters are Unicode scalar values, so the lone surrogates for which
 * `encodeURIComponent` throws cannot occur here.
 */
module WebEncoding {
  import opened Wrappers

  type byte = x: int | 0 <= x < 256

  const REPLACEMENT: char := '\U{FFFD}'

  /** A string whose characters all fit in one byte (what `btoa` accepts). */
  predicate IsLatin1(s: string)
  {
    forall i :: 0 <= i < |s| ==> s[i] as int < 256
  }

  predicate IsAscii(s: string)
  {
    forall i :: 0 <= i < |s| ==> s[i] as int < 128
  }

  /** `String.fromCharCode` of each byte: the "binary string" of a byte sequence. */
  function Latin1Of(bs: seq<byte>): (s: string)
    ensures |s| == |bs| && IsLatin1(s)
    ensures forall i :: 0 <= i < |bs| ==> s[i] as int == bs[i]
  {
    seq(|bs|, i requires 0 <= i < |bs| => bs[i] as char)
  }

  /** `s.charCodeAt(i)` for every index of a Latin-1 string. */
  function BytesOf(s: string): (bs: seq<byte>)
    requires IsLatin1(s)
    ensures |bs| == |s|
    ensures forall i :: 0 <= i < |s| ==> bs[i] == s[i] as int
  {
    seq(|s|, i requires 0 <= i < |s| => s[i] as int)
  }

  lemma BytesOfLatin1(bs: seq<byte>)
    ensures BytesOf(Latin1Of(bs)) == bs
  {
  }

  /** `s.split('').reverse().join('')`. */
  function Reverse(s: string): (r: string)
    ensures |r| == |s|
    ensures forall i :: 0 <= i < |s| ==> r[i] == s[|s| - 1 - i]
  {
    seq(|s|, i requires 0 <= i < |s| => s[|s| - 1 - i])
  }

  lemma ReverseReverse(s: string)
    ensures Reverse(Reverse(s)) == s
  {
  }

  lemma ReverseAscii(s: string)
    requires IsAscii(s)
    ensures IsAscii(Reverse(s))
  {
  }

  // ---------------------------------------------------------------------------
  // UTF-8
  // ---------------------------------------------------------------------------

  /** The UTF-8 encoding of one scalar value. */
  function Utf8Char(c: char): (bs: seq<byte>)
    ensures 1 <= |bs| <= 4
  {
    var n := c as int;
    if n < 0x80 then [n]
    else if n < 0x800 then [0xC0 + n / 64, 0x80 + n % 64]
    else if n < 0x10000 then [0xE0 + n / 4096, 0x80 + (n / 64) % 64, 0x80 + n % 64]
    else [0xF0 + n / 262144, 0x80 + (n / 4096) % 64, 0x80 + (n / 64) % 64, 0x80 + n % 64]
  }

  /** `new TextEncoder().encode(s)`. */
  function Utf8Encode(s: string): (bs: seq<byte>)
    ensures |bs| >= |s|
  {
    if |s| == 0 then [] else Utf8Char(s[0]) + Utf8Encode(s[1..])
  }

  lemma Utf8EncodeConcat(a: string, b: string)
    ensures Utf8Encode(a + b) == Utf8Encode(a) + Utf8Encode(b)
  {
    if |a| > 0 {
      assert (a + b)[1..] == a[1..] + b;
      Utf8EncodeConcat(a[1..], b);
    } else {
      assert a + b == b;
    }
  }

  /** Length of the UTF-8 sequence a byte starts, read from its leading one bits; 0 for a byte that cannot start one. */
  function SequenceLength(b: byte): nat
  {
    if b < 0x80 then 1
    else if b < 0xC0 then 0
    else if b < 0xE0 then 2
    else if b < 0xF0 then 3
    else if b < 0xF8 then 4
    else 0
  }

  predicate IsContinuation(b: byte)
  {
    0x80 <= b < 0xC0
  }

  /** The bits a sequence of 1 to 4 bytes carries, read as UTF-8. */
  function SequenceValue(bs: seq<byte>): int
    requires 1 <= |bs| <= 4
  {
    var b0: int := bs[0];
    if |bs| == 1 then b0
    else
      var b1: int := bs[1];
      if |bs| == 2 then (b0 - 0xC0) * 64 + (b1 - 0x80)
      else
        var b2: int := bs[2];
        if |bs| == 3 then (b0 - 0xE0) * 4096 + (b1 - 0x80) * 64 + (b2 - 0x80)
        else
          var b3: int := bs[3];
          (b0 - 0xF0) * 262144 + (b1 - 0x80) * 4096 + (b2 - 0x80) * 64 + (b3 - 0x80)
  }

  /** The smallest scalar value a sequence of `n` bytes may carry (shorter forms are overlong). */
  function LeastValue(n: nat): int
  {
    if n <= 1 then 0 else if n == 2 then 0x80 else if n == 3 then 0x800 else 0x10000
  }

  /**
   * The scalar value a complete UTF-8 sequence stands for, or None when it is
   * overlong, a surrogate or beyond U+10FFFF.
   */
  function DecodeSequence(bs: seq<byte>): (r: Option<char>)
    requires 1 <= |bs| == SequenceLength(bs[0])
    requires forall i :: 1 <= i < |bs| ==> IsContinuation(bs[i])
    ensures r.Some? ==> Utf8Char(r.value) == bs
  {
    var v := SequenceValue(bs);
    if v < LeastValue(|bs|) || (0xD800 <= v < 0xE000) || v >= 0x110000 then None
    else
      DecodedBytes(bs);
      Some(v as char)
  }

  lemma DecodedBytes(bs: seq<byte>)
    requires 1 <= |bs| == SequenceLength(bs[0])
    requires forall i :: 1 <= i < |bs| ==> IsContinuation(bs[i])
    requires LeastValue(|bs|) <= SequenceValue(bs) < 0x110000
    requires !(0xD800 <= SequenceValue(bs) < 0xE000)
    ensures Utf8Char(SequenceValue(bs) as char) == bs
  {
    if |bs| == 2 {
      assert bs == [bs[0], bs[1]];
      EncodesTwo(bs[0], bs[1]);
    } else if |bs| == 3 {
      assert bs == [bs[0], bs[1], bs[2]];
      EncodesThree(bs[0], bs[1], bs[2]);
    } else if |bs| == 4 {
      assert bs == [bs[0], bs[1], bs[2], bs[3]];
      EncodesFour(bs[0], bs[1], bs[2], bs[3]);
    }
  }

  lemma EncodesTwo(b0: byte, b1: byte)
    requires 0xC0 <= b0 < 0xE0 && IsContinuation(b1)
    requires 0x80 <= (b0 - 0xC0) * 64 + (b1 - 0x80)
    ensures Utf8Char(((b0 - 0xC0) * 64 + (b1 - 0x80)) as char) == [b0, b1]
  {
    TwoBytes(b0, b1);
  }

  lemma EncodesThree(b0: byte, b1: byte, b2: byte)
    requires 0xE0 <= b0 < 0xF0 && IsContinuation(b1) && IsContinuation(b2)
    requires var v := (b0 - 0xE0) * 4096 + (b1 - 0x80) * 64 + (b2 - 0x80);
      0x800 <= v && !(0xD800 <= v < 0xE000)
    ensures Utf8Char(((b0 - 0xE0) * 4096 + (b1 - 0x80) * 64 + (b2 - 0x80)) as char) == [b0, b1, b2]
  {
    ThreeBytes(b0, b1, b2);
  }

  lemma EncodesFour(b0: byte, b1: byte, b2: byte, b3: byte)
    requires 0xF0 <= b0 < 0xF8 && IsContinuation(b1) && IsContinuation(b2) && IsContinuation(b3)
    requires var v := (b0 - 0xF0) * 262144 + (b1 - 0x80) * 4096 + (b2 - 0x80) * 64 + (b3 - 0x80);
      0x10000 <= v < 0x110000
    ensures Utf8Char(((b0 - 0xF0) * 262144 + (b1 - 0x80) * 4096 + (b2 - 0x80) * 64 + (b3 - 0x80)) as char) == [b0, b1, b2, b3]
  {
    FourBytes(b0, b1, b2, b3);
  }

  /** A two-byte sequence carries an eleven-bit value whose halves are its bytes' payloads. */
  lemma TwoBytes(b0: int, b1: int)
    requires 0xC0 <= b0 < 0xE0 && 0x80 <= b1 < 0xC0
    ensures var v := (b0 - 0xC0) * 64 + (b1 - 0x80);
      v < 0x800 && v / 64 == b0 - 0xC0 && v % 64 == b1 - 0x80
  {
  }

  /** A three-byte sequence carries a sixteen-bit value split into its bytes' payloads. */
  lemma ThreeBytes(b0: int, b1: int, b2: int)
    requires 0xE0 <= b0 < 0xF0 && 0x80 <= b1 < 0xC0 && 0x80 <= b2 < 0xC0
    ensures var v := (b0 - 0xE0) * 4096 + (b1 - 0x80) * 64 + (b2 - 0x80);
      v < 0x10000 && v / 4096 == b0 - 0xE0 && (v / 64) % 64 == b1 - 0x80 && v % 64 == b2 - 0x80
  {
    var v := (b0 - 0xE0) * 4096 + (b1 - 0x80) * 64 + (b2 - 0x80);
    assert v / 64 == (b0 - 0xE0) * 64 + (b1 - 0x80);
  }

  /** A four-byte sequence carries a 21-bit value split into its bytes' payloads. */
  lemma FourBytes(b0: int, b1: int, b2: int, b3: int)
    requires 0xF0 <= b0 < 0xF8 && 0x80 <= b1 < 0xC0 && 0x80 <= b2 < 0xC0 && 0x80 <= b3 < 0xC0
    ensures var v := (b0 - 0xF0) * 262144 + (b1 - 0x80) * 4096 + (b2 - 0x80) * 64 + (b3 - 0x80);
      v / 262144 == b0 - 0xF0 && (v / 4096) % 64 == b1 - 0x80 && (v / 64) % 64 == b2 - 0x80 && v % 64 == b3 - 0x80
  {
    var v := (b0 - 0xF0) * 262144 + (b1 - 0x80) * 4096 + (b2 - 0x80) * 64 + (b3 - 0x80);
    assert v / 64 == (b0 - 0xF0) * 4096 + (b1 - 0x80) * 64 + (b2 - 0x80);
    assert v / 4096 == (b0 - 0xF0) * 64 + (b1 - 0x80);
  }

  lemma ValueOfChar(c: char)
    ensures SequenceValue(Utf8Char(c)) == c as int
    ensures LeastValue(|Utf8Char(c)|) <= c as int
  {
    var n := c as int;
    var bs := Utf8Char(c);
    if n < 0x80 {
    } else if n < 0x800 {
      assert SequenceValue(bs) == (bs[0] as int - 0xC0) * 64 + (bs[1] as int - 0x80);
    } else if n < 0x10000 {
      assert SequenceValue(bs) == (bs[0] as int - 0xE0) * 4096 + (bs[1] as int - 0x80) * 64 + (bs[2] as int - 0x80);
      ThreeDigits(n);
    } else {
      assert SequenceValue(bs) == (bs[0] as int - 0xF0) * 262144 + (bs[1] as int - 0x80) * 4096
        + (bs[2] as int - 0x80) * 64 + (bs[3] as int - 0x80);
      FourDigits(n);
    }
  }

  lemma ThreeDigits(n: int)
    requires 0 <= n
    ensures n == 4096 * (n / 4096) + 64 * ((n / 64) % 64) + n % 64
  {
  }

  lemma FourDigits(n: int)
    requires 0 <= n
    ensures n == 262144 * (n / 262144) + 4096 * ((n / 4096) % 64) + 64 * ((n / 64) % 64) + n % 64
  {
    var q := n / 64;
    ThreeDigits(q);
    DivOfDiv(n);
  }

  lemma DivOfDiv(n: int)
    requires 0 <= n
    ensures (n / 64) / 64 == n / 4096 && (n / 64) / 4096 == n / 262144
  {
    var q := n / 64;
    assert n == 64 * q + n % 64;
    assert q == 64 * (q / 64) + q % 64;
    assert q == 4096 * (q / 4096) + q % 4096;
  }

  /** The encoding of a character is a well-formed sequence that decodes back to it. */
  lemma DecodeSequenceOfChar(c: char)
    ensures 1 <= |Utf8Char(c)| == SequenceLength(Utf8Char(c)[0])
    ensures forall i :: 1 <= i < |Utf8Char(c)| ==> IsContinuation(Utf8Char(c)[i])
    ensures DecodeSequence(Utf8Char(c)) == Some(c)
  {
    ValueOfChar(c);
  }

  // ---------------------------------------------------------------------------
  // Percent-encoding: encodeURIComponent / decodeURIComponent
  // ---------------------------------------------------------------------------

  /** Characters `encodeURIComponent` leaves as they are. */
  predicate IsUnreserved(c: char)
  {
    ('A' <= c <= 'Z') || ('a' <= c <= 'z') || ('0' <= c <= '9')
    || c == '-' || c == '_' || c == '.' || c == '!' || c == '~' || c == '*' || c == '\'' || c == '(' || c == ')'
  }

  /** Upper-case hexadecimal digit. */
  function HexDigit(d: nat): (c: char)
    requires d < 16
    ensures c as int < 128
  {
    if d < 10 then ('0' as int + d) as char else ('A' as int + d - 10) as char
  }

  /** Value of a hexadecimal digit of either case. */
  function HexValue(c: char): (r: Option<nat>)
    ensures r.Some? ==> r.value < 16
  {
    if '0' <= c <= '9' then Some(c as int - '0' as int)
    else if 'A' <= c <= 'F' then Some(c as int - 'A' as int + 10)
    else if 'a' <= c <= 'f' then Some(c as int - 'a' as int + 10)
    else None
  }

  lemma HexRoundTrip(d: nat)
    requires d < 16
    ensures HexValue(HexDigit(d)) == Some(d)
  {
  }

  function PercentByte(b: byte): (r: string)
    ensures |r| == 3
  {
    ['%', HexDigit(b / 16), HexDigit(b % 16)]
  }

  function PercentBytes(bs: seq<byte>): (r: string)
    ensures |r| == 3 * |bs|
  {
    if |bs| == 0 then "" else PercentByte(bs[0]) + PercentBytes(bs[1..])
  }

  function EncodeUriChar(c: char): string
  {
    if IsUnreserved(c) then [c] else PercentBytes(Utf8Char(c))
  }

  /** `encodeURIComponent(s)`. */
  function EncodeUriComponent(s: string): (r: string)
  {
    if |s| == 0 then "" else EncodeUriChar(s[0]) + EncodeUriComponent(s[1..])
  }

  lemma PercentBytesAscii(bs: seq<byte>)
    ensures IsAscii(PercentBytes(bs))
  {
    if |bs| > 0 {
      PercentBytesAscii(bs[1..]);
      assert PercentBytes(bs) == PercentByte(bs[0]) + PercentBytes(bs[1..]);
    }
  }

  /** Percent-encoding only ever produces ASCII. */
  lemma EncodeUriComponentAscii(s: string)
    ensures IsAscii(EncodeUriComponent(s))
  {
    if |s| > 0 {
      EncodeUriComponentAscii(s[1..]);
      PercentBytesAscii(Utf8Char(s[0]));
      assert EncodeUriComponent(s) == EncodeUriChar(s[0]) + EncodeUriComponent(s[1..]);
    }
  }

  /** The byte written as `%XX` at the start of `s`, if it starts with one. */
  function ByteAt(s: string): Option<byte>
  {
    if |s| >= 3 && s[0] == '%' && HexValue(s[1]).Some? && HexValue(s[2]).Some? then
      Some(HexValue(s[1]).value * 16 + HexValue(s[2]).value)
    else None
  }

  /** `m` consecutive `%XX` continuation bytes at the start of `s`. */
  function ContinuationsAt(s: string, m: nat): (r: Option<seq<byte>>)
    ensures r.Some? ==> |r.value| == m && 3 * m <= |s|
    ensures r.Some? ==> forall i :: 0 <= i < m ==> IsContinuation(r.value[i])
  {
    if m == 0 then Some([])
    else match ByteAt(s)
      case None => None
      case Some(b) =>
        if !IsContinuation(b) then None
        else match ContinuationsAt(s[3..], m - 1)
          case None => None
          case Some(more) => Some([b] + more)
  }

  function Prepend(c: char, r: Option<string>): Option<string>
  {
    match r
    case Some(t) => Some([c] + t)
    case None => None
  }

  /**
   * `decodeURIComponent(s)`; None where it throws a URIError: a `%` not
   * followed by two hexadecimal digits, a byte that cannot start a sequence,
   * a missing or malformed continuation byte, or a sequence that is not the
   * UTF-8 encoding of a scalar value.
   */
  function DecodeUriComponent(s: string): (r: Option<string>)
    decreases |s|
  {
    if |s| == 0 then Some("")
    else if s[0] != '%' then Prepend(s[0], DecodeUriComponent(s[1..]))
    else match ByteAt(s)
      case None => None
      case Some(b) =>
        var n := SequenceLength(b);
        if n == 0 then None
        else match ContinuationsAt(s[3..], n - 1)
          case None => None
          case Some(more) =>
            match DecodeSequence([b] + more)
            case None => None
            case Some(c) => Prepend(c, DecodeUriComponent(s[3 * n..]))
  }

  lemma ByteAtPercent(b: byte, rest: string)
    ensures ByteAt(PercentByte(b) + rest) == Some(b)
  {
    HexRoundTrip(b / 16);
    HexRoundTrip(b % 16);
  }

  lemma ContinuationsOfPercent(bs: seq<byte>, rest: string)
    requires forall i :: 0 <= i < |bs| ==> IsContinuation(bs[i])
    ensures ContinuationsAt(PercentBytes(bs) + rest, |bs|) == Some(bs)
  {
    if |bs| > 0 {
      var t := PercentBytes(bs) + rest;
      assert t == PercentByte(bs[0]) + (PercentBytes(bs[1..]) + rest);
      ByteAtPercent(bs[0], PercentBytes(bs[1..]) + rest);
      assert t[3..] == PercentBytes(bs[1..]) + rest;
      ContinuationsOfPercent(bs[1..], rest);
      assert [bs[0]] + bs[1..] == bs;
    }
  }

  lemma DecodeEncodedChar(c: char, rest: string)
    ensures DecodeUriComponent(EncodeUriChar(c) + rest) == Prepend(c, DecodeUriComponent(rest))
  {
    var t := EncodeUriChar(c) + rest;
    if IsUnreserved(c) {
      assert t[1..] == rest;
    } else {
      var bs := Utf8Char(c);
      DecodeSequenceOfChar(c);
      assert t == PercentByte(bs[0]) + (PercentBytes(bs[1..]) + rest);
      ByteAtPercent(bs[0], PercentBytes(bs[1..]) + rest);
      assert t[3..] == PercentBytes(bs[1..]) + rest;
      ContinuationsOfPercent(bs[1..], rest);
      assert [bs[0]] + bs[1..] == bs;
      assert t[3 * |bs|..] == rest;
    }
  }

  /** `decodeURIComponent(encodeURIComponent(s)) === s` for every string. */
  lemma {:induction false} UriRoundTrip(s: string)
    ensures DecodeUriComponent(EncodeUriComponent(s)) == Some(s)
  {
    if |s| > 0 {
      DecodeEncodedChar(s[0], EncodeUriComponent(s[1..]));
      UriRoundTrip(s[1..]);
      assert [s[0]] + s[1..] == s;
    }
  }

  // ---------------------------------------------------------------------------
  // Base64: btoa / atob
  // ---------------------------------------------------------------------------

  /** The base64 alphabet of section 4 of RFC 4648. */
  function Base64Digit(v: nat): (c: char)
    requires v < 64
    ensures c as int < 128 && c != '='
  {
    if v < 26 then ('A' as int + v) as char
    else if v < 52 then ('a' as int + v - 26) as char
    else if v < 62 then ('0' as int + v - 52) as char
    else if v == 62 then '+'
    else '/'
  }

  function Base64Value(c: char): (r: Option<nat>)
    ensures r.Some? ==> r.value < 64 && Base64Digit(r.value) == c
  {
    if 'A' <= c <= 'Z' then Some(c as int - 'A' as int)
    else if 'a' <= c <= 'z' then Some(c as int - 'a' as int + 26)
    else if '0' <= c <= '9' then Some(c as int - '0' as int + 52)
    else if c == '+' then Some(62)
    else if c == '/' then Some(63)
    else None
  }

  lemma Base64DigitValue(v: nat)
    requires v < 64
    ensures Base64Value(Base64Digit(v)) == Some(v)
  {
  }

  predicate IsBase64(t: string)
  {
    forall i :: 0 <= i < |t| ==> Base64Value(t[i]).Some?
  }

  /** The four digits that encode three bytes. */
  function Quad(b0: byte, b1: byte, b2: byte): (r: string)
    ensures |r| == 4 && IsBase64(r)
  {
    Base64DigitValue(b0 / 4);
    Base64DigitValue((b0 % 4) * 16 + b1 / 16);
    Base64DigitValue((b1 % 16) * 4 + b2 / 64);
    Base64DigitValue(b2 % 64);
    [Base64Digit(b0 / 4), Base64Digit((b0 % 4) * 16 + b1 / 16), Base64Digit((b1 % 16) * 4 + b2 / 64), Base64Digit(b2 % 64)]
  }

  /** The three digits that encode a last pair of bytes. */
  function Tail2(b0: byte, b1: byte): (r: string)
    ensures |r| == 3 && IsBase64(r)
  {
    Base64DigitValue(b0 / 4);
    Base64DigitValue((b0 % 4) * 16 + b1 / 16);
    Base64DigitValue((b1 % 16) * 4);
    [Base64Digit(b0 / 4), Base64Digit((b0 % 4) * 16 + b1 / 16), Base64Digit((b1 % 16) * 4)]
  }

  /** The two digits that encode a last single byte. */
  function Tail1(b0: byte): (r: string)
    ensures |r| == 2 && IsBase64(r)
  {
    Base64DigitValue(b0 / 4);
    Base64DigitValue((b0 % 4) * 16);
    [Base64Digit(b0 / 4), Base64Digit((b0 % 4) * 16)]
  }

  lemma Base64Concat(a: string, b: string)
    requires IsBase64(a) && IsBase64(b)
    ensures IsBase64(a + b)
  {
    forall i | 0 <= i < |a + b| ensures Base64Value((a + b)[i]).Some? {
      if i < |a| { assert (a + b)[i] == a[i]; } else { assert (a + b)[i] == b[i - |a|]; }
    }
  }

  /** Three more bytes add one whole group of four digits. */
  lemma GroupLength(n: int, k: int)
    requires n >= 3 && k >= 0 && k % 4 == (if (n - 3) % 3 == 0 then 0 else (n - 3) % 3 + 1)
    ensures (4 + k) % 4 == (if n % 3 == 0 then 0 else n % 3 + 1)
  {
  }

  /** The base64 digits of a Latin-1 string, without the trailing `=` padding. */
  function Unpadded(s: string): (r: string)
    requires IsLatin1(s)
    ensures IsBase64(r)
    ensures |r| % 4 == (if |s| % 3 == 0 then 0 else |s| % 3 + 1)
  {
    if |s| >= 3 then
      var q := Quad(s[0] as int, s[1] as int, s[2] as int);
      var rest := Unpadded(s[3..]);
      Base64Concat(q, rest);
      GroupLength(|s|, |rest|);
      q + rest
    else if |s| == 2 then Tail2(s[0] as int, s[1] as int)
    else if |s| == 1 then Tail1(s[0] as int)
    else ""
  }

  function Padding(n: nat): string
  {
    if n % 3 == 1 then "==" else if n % 3 == 2 then "=" else ""
  }

  /** `btoa(s)` for a Latin-1 string. */
  function EncodeLatin1(s: string): (r: string)
    requires IsLatin1(s)
    ensures |r| % 4 == 0
  {
    Unpadded(s) + Padding(|s|)
  }

  /** `btoa(s)`; None where it throws (a character above U+00FF). */
  function Btoa(s: string): (r: Option<string>)
    ensures r.Some? <==> IsLatin1(s)
  {
    if IsLatin1(s) then Some(EncodeLatin1(s)) else None
  }

  /** The ASCII white space the forgiving base64 decoder skips. */
  predicate IsAsciiWhitespace(c: char)
  {
    c == '\t' || c == '\n' || c == '\U{0C}' || c == '\r' || c == ' '
  }

  function RemoveWhitespace(s: string): (r: string)
    ensures |r| <= |s|
  {
    if |s| == 0 then ""
    else if IsAsciiWhitespace(s[0]) then RemoveWhitespace(s[1..])
    else [s[0]] + RemoveWhitespace(s[1..])
  }

  /** When the length is a multiple of four, drop one or two trailing `=`. */
  function StripPadding(t: string): (r: string)
    ensures |r| <= |t|
  {
    if |t| % 4 == 0 && |t| >= 2 && t[|t| - 2] == '=' && t[|t| - 1] == '=' then t[..|t| - 2]
    else if |t| % 4 == 0 && |t| >= 1 && t[|t| - 1] == '=' then t[..|t| - 1]
    else t
  }

  /** The three bytes four digit values carry. */
  function Triple(v0: nat, v1: nat, v2: nat, v3: nat): (r: string)
    requires v0 < 64 && v1 < 64 && v2 < 64 && v3 < 64
    ensures |r| == 3 && IsLatin1(r)
  {
    [(v0 * 4 + v1 / 16) as char, ((v1 % 16) * 16 + v2 / 4) as char, ((v2 % 4) * 64 + v3) as char]
  }

  /** Bytes of base64 digits, four digits giving three bytes; a tail of two or three digits gives one or two. */
  function DecodeDigits(t: string): (r: string)
    requires IsBase64(t) && |t| % 4 != 1
    ensures IsLatin1(r)
  {
    if |t| >= 4 then
      var v0, v1, v2, v3 := Base64Value(t[0]).value, Base64Value(t[1]).value, Base64Value(t[2]).value, Base64Value(t[3]).value;
      Triple(v0, v1, v2, v3) + DecodeDigits(t[4..])
    else if |t| == 3 then
      var v0, v1, v2 := Base64Value(t[0]).value, Base64Value(t[1]).value, Base64Value(t[2]).value;
      [(v0 * 4 + v1 / 16) as char, ((v1 % 16) * 16 + v2 / 4) as char]
    else if |t| == 2 then
      var v0, v1 := Base64Value(t[0]).value, Base64Value(t[1]).value;
      [(v0 * 4 + v1 / 16) as char]
    else ""
  }

  /**
   * `atob(s)`, the forgiving base64 decoder; None where it throws: a length
   * of the form 4k+1 once white space and padding are gone, or a character
   * outside the alphabet.
   */
  function Atob(s: string): (r: Option<string>)
    ensures r.Some? ==> IsLatin1(r.value)
  {
    var t := StripPadding(RemoveWhitespace(s));
    if |t| % 4 == 1 || !IsBase64(t) then None else Some(DecodeDigits(t))
  }

  lemma RemoveWhitespaceOfBase64(t: string)
    requires forall i :: 0 <= i < |t| ==> Base64Value(t[i]).Some? || t[i] == '='
    ensures RemoveWhitespace(t) == t
  {
    if |t| > 0 {
      RemoveWhitespaceOfBase64(t[1..]);
      assert [t[0]] + t[1..] == t;
    }
  }

  lemma StripPaddingOfEncoding(s: string)
    requires IsLatin1(s)
    ensures RemoveWhitespace(EncodeLatin1(s)) == EncodeLatin1(s)
    ensures StripPadding(EncodeLatin1(s)) == Unpadded(s)
  {
    var u := Unpadded(s);
    var e := EncodeLatin1(s);
    RemoveWhitespaceOfBase64(e);
    if |s| % 3 == 1 {
      assert e[..|e| - 2] == u;
    } else if |s| % 3 == 2 {
      assert e[..|e| - 1] == u;
      assert e[|e| - 2] == u[|u| - 1];
      assert Base64Value(u[|u| - 1]).Some?;
    } else {
      assert e == u;
      if |e| > 0 {
        assert Base64Value(e[|e| - 1]).Some?;
      }
    }
  }

  lemma SplitBits(b0: byte, b1: byte, b2: byte)
    ensures (b0 / 4) * 4 + ((b0 % 4) * 16 + b1 / 16) / 16 == b0
    ensures (((b0 % 4) * 16 + b1 / 16) % 16) * 16 + ((b1 % 16) * 4 + b2 / 64) / 4 == b1
    ensures (((b1 % 16) * 4 + b2 / 64) % 4) * 64 + b2 % 64 == b2
  {
  }

  lemma TripleOfBytes(b0: byte, b1: byte, b2: byte)
    ensures Triple(b0 / 4, (b0 % 4) * 16 + b1 / 16, (b1 % 16) * 4 + b2 / 64, b2 % 64) == [b0 as char, b1 as char, b2 as char]
  {
    SplitBits(b0, b1, b2);
    var r := Triple(b0 / 4, (b0 % 4) * 16 + b1 / 16, (b1 % 16) * 4 + b2 / 64, b2 % 64);
    assert r[0] as int == b0 && r[1] as int == b1 && r[2] as int == b2;
  }

  lemma DecodeDigitsStep(t: string)
    requires |t| >= 4 && IsBase64(t) && |t| % 4 != 1
    ensures DecodeDigits(t) == Triple(Base64Value(t[0]).value, Base64Value(t[1]).value, Base64Value(t[2]).value, Base64Value(t[3]).value) + DecodeDigits(t[4..])
  {
  }

  lemma DecodeDigitGroup(v0: nat, v1: nat, v2: nat, v3: nat, rest: string)
    requires v0 < 64 && v1 < 64 && v2 < 64 && v3 < 64
    requires IsBase64(rest) && |rest| % 4 != 1
    ensures IsBase64([Base64Digit(v0), Base64Digit(v1), Base64Digit(v2), Base64Digit(v3)] + rest)
    ensures DecodeDigits([Base64Digit(v0), Base64Digit(v1), Base64Digit(v2), Base64Digit(v3)] + rest)
      == Triple(v0, v1, v2, v3) + DecodeDigits(rest)
  {
    var t := [Base64Digit(v0), Base64Digit(v1), Base64Digit(v2), Base64Digit(v3)] + rest;
    Base64DigitValue(v0);
    Base64DigitValue(v1);
    Base64DigitValue(v2);
    Base64DigitValue(v3);
    assert t[4..] == rest;
    assert IsBase64(t) by {
      forall i | 0 <= i < |t| ensures Base64Value(t[i]).Some? {
        if i >= 4 {
          assert t[i] == rest[i - 4];
        }
      }
    }
    DecodeDigitsStep(t);
  }

  lemma DecodeQuad(b0: byte, b1: byte, b2: byte, rest: string)
    requires IsBase64(rest) && |rest| % 4 != 1
    ensures IsBase64(Quad(b0, b1, b2) + rest)
    ensures DecodeDigits(Quad(b0, b1, b2) + rest) == [b0 as char, b1 as char, b2 as char] + DecodeDigits(rest)
  {
    DecodeDigitGroup(b0 / 4, (b0 % 4) * 16 + b1 / 16, (b1 % 16) * 4 + b2 / 64, b2 % 64, rest);
    TripleOfBytes(b0, b1, b2);
  }

  lemma {:induction false} DecodeUnpadded(s: string)
    requires IsLatin1(s)
    ensures DecodeDigits(Unpadded(s)) == s
    decreases |s|
  {
    if |s| >= 3 {
      var b0: byte, b1: byte, b2: byte := s[0] as int, s[1] as int, s[2] as int;
      assert Unpadded(s) == Quad(b0, b1, b2) + Unpadded(s[3..]);
      DecodeQuad(b0, b1, b2, Unpadded(s[3..]));
      DecodeUnpadded(s[3..]);
      assert s == [s[0], s[1], s[2]] + s[3..];
    } else if |s| == 2 {
      var b0: byte, b1: byte := s[0] as int, s[1] as int;
      Base64DigitValue(b0 / 4);
      Base64DigitValue((b0 % 4) * 16 + b1 / 16);
      Base64DigitValue((b1 % 16) * 4);
      SplitBits(b0, b1, 0);
    } else if |s| == 1 {
      var b0: byte := s[0] as int;
      Base64DigitValue(b0 / 4);
      Base64DigitValue((b0 % 4) * 16);
      SplitBits(b0, 0, 0);
    }
  }

  /** `atob(btoa(s)) === s` for every string `btoa` accepts. */
  lemma BtoaAtob(s: string)
    requires IsLatin1(s)
    ensures Atob(EncodeLatin1(s)) == Some(s)
  {
    StripPaddingOfEncoding(s);
    DecodeUnpadded(s);
  }

  // ---------------------------------------------------------------------------
  // TextDecoder('utf-8')
  // ---------------------------------------------------------------------------

  /**
   * What the UTF-8 decoder of the Encoding standard expects after a byte:
   * how many continuation bytes, and the range the first of them must fall in
   * (the narrower ranges rule out overlong forms, surrogates and values beyond
   * U+10FFFF).  `needed == 0` marks a byte that cannot start a sequence.
   */
  datatype Lead = Lead(needed: nat, lower: int, upper: int)

  function LeadOf(b: byte): (l: Lead)
    ensures l.needed <= 3
  {
    if 0xC2 <= b <= 0xDF then Lead(1, 0x80, 0xBF)
    else if b == 0xE0 then Lead(2, 0xA0, 0xBF)
    else if b == 0xED then Lead(2, 0x80, 0x9F)
    else if 0xE1 <= b <= 0xEF then Lead(2, 0x80, 0xBF)
    else if b == 0xF0 then Lead(3, 0x90, 0xBF)
    else if b == 0xF4 then Lead(3, 0x80, 0x8F)
    else if 0xF1 <= b <= 0xF3 then Lead(3, 0x80, 0xBF)
    else Lead(0, 0x80, 0xBF)
  }

  /**
   * How many of the next `needed` bytes the decoder accepts before it meets
   * one out of range (the first within [lower, upper], the others within
   * [0x80, 0xBF]) or the end of the input.
   */
  function AcceptedCount(bs: seq<byte>, needed: nat, lower: int, upper: int): (k: nat)
    ensures k <= needed && k <= |bs|
  {
    if needed == 0 || |bs| == 0 || !(lower <= bs[0] <= upper) then 0
    else 1 + AcceptedCount(bs[1..], needed - 1, 0x80, 0xBF)
  }

  lemma {:induction false} AcceptedBytes(bs: seq<byte>, needed: nat, lower: int, upper: int)
    requires AcceptedCount(bs, needed, lower, upper) == needed > 0
    ensures lower <= bs[0] <= upper
    ensures forall i :: 1 <= i < needed ==> 0x80 <= bs[i] <= 0xBF
  {
    if needed > 1 {
      AcceptedBytes(bs[1..], needed - 1, 0x80, 0xBF);
      assert forall i :: 1 <= i < needed ==> bs[i] == bs[1..][i - 1];
    }
  }

  lemma {:induction false} AcceptAll(bs: seq<byte>, needed: nat, lower: int, upper: int)
    requires needed <= |bs|
    requires needed > 0 ==> lower <= bs[0] <= upper
    requires forall i :: 1 <= i < needed ==> 0x80 <= bs[i] <= 0xBF
    ensures AcceptedCount(bs, needed, lower, upper) == needed
  {
    if needed > 0 {
      assert forall i :: 1 <= i < needed - 1 ==> bs[1..][i] == bs[i + 1];
      AcceptAll(bs[1..], needed - 1, 0x80, 0xBF);
    }
  }

  /** A lead byte followed by all the continuation bytes it needs is a well-formed sequence. */
  lemma AcceptedSequence(bs: seq<byte>)
    requires |bs| >= 1 && LeadOf(bs[0]).needed > 0
    requires AcceptedCount(bs[1..], LeadOf(bs[0]).needed, LeadOf(bs[0]).lower, LeadOf(bs[0]).upper) == LeadOf(bs[0]).needed
    ensures |bs| >= LeadOf(bs[0]).needed + 1
    ensures SequenceLength(bs[0]) == LeadOf(bs[0]).needed + 1
    ensures forall i :: 1 <= i <= LeadOf(bs[0]).needed ==> IsContinuation(bs[i])
    ensures DecodeSequence(bs[..LeadOf(bs[0]).needed + 1]).Some?
  {
    var l := LeadOf(bs[0]);
    AcceptedBytes(bs[1..], l.needed, l.lower, l.upper);
    assert forall i :: 1 <= i <= l.needed ==> bs[i] == bs[1..][i - 1];
  }

  /** The scalar value of a sequence the decoder accepted. */
  function AcceptedScalar(bs: seq<byte>): char
    requires |bs| >= 1 && LeadOf(bs[0]).needed > 0
    requires AcceptedCount(bs[1..], LeadOf(bs[0]).needed, LeadOf(bs[0]).lower, LeadOf(bs[0]).upper) == LeadOf(bs[0]).needed
  {
    AcceptedSequence(bs);
    DecodeSequence(bs[..LeadOf(bs[0]).needed + 1]).value
  }

  /**
   * The UTF-8 decoder of the Encoding standard in replacement mode: each
   * maximal ill-formed subsequence becomes one U+FFFD, and a byte that breaks
   * a sequence is decoded afresh.
   */
  function DecodeLossy(bs: seq<byte>): string
    decreases |bs|
  {
    if |bs| == 0 then ""
    else if bs[0] < 0x80 then [bs[0] as char] + DecodeLossy(bs[1..])
    else
      var l := LeadOf(bs[0]);
      if l.needed == 0 then [REPLACEMENT] + DecodeLossy(bs[1..])
      else
        var k := AcceptedCount(bs[1..], l.needed, l.lower, l.upper);
        if k == l.needed then [AcceptedScalar(bs)] + DecodeLossy(bs[k + 1..])
        else [REPLACEMENT] + DecodeLossy(bs[k + 1..])
  }

  /** `new TextDecoder('utf-8').decode(bs)`: a leading byte-order mark is dropped. */
  function TextDecode(bs: seq<byte>): string
  {
    if |bs| >= 3 && bs[0] == 0xEF && bs[1] == 0xBB && bs[2] == 0xBF then DecodeLossy(bs[3..])
    else DecodeLossy(bs)
  }

  /** The encoding of a character passes the decoder's range checks. */
  lemma Utf8CharAccepted(c: char)
    requires c as int >= 0x80
    ensures LeadOf(Utf8Char(c)[0]).needed == |Utf8Char(c)| - 1
    ensures AcceptedCount(Utf8Char(c)[1..], LeadOf(Utf8Char(c)[0]).needed, LeadOf(Utf8Char(c)[0]).lower, LeadOf(Utf8Char(c)[0]).upper)
      == |Utf8Char(c)| - 1
  {
    var n := c as int;
    if n < 0x800 {
      TwoBytesAccepted(c);
    } else if n < 0x10000 {
      ThreeBytesAccepted(c);
    } else {
      FourBytesAccepted(c);
    }
  }

  lemma TwoBytesAccepted(c: char)
    requires 0x80 <= c as int < 0x800
    ensures LeadOf(Utf8Char(c)[0]).needed == |Utf8Char(c)| - 1
    ensures AcceptedCount(Utf8Char(c)[1..], LeadOf(Utf8Char(c)[0]).needed, LeadOf(Utf8Char(c)[0]).lower, LeadOf(Utf8Char(c)[0]).upper)
      == |Utf8Char(c)| - 1
  {
    var n := c as int;
    var bs := Utf8Char(c);
    assert bs == [0xC0 + n / 64, 0x80 + n % 64];
    assert n / 64 >= 2;
    var l := LeadOf(bs[0]);
    assert l == Lead(1, 0x80, 0xBF);
    AcceptAll(bs[1..], l.needed, l.lower, l.upper);
  }

  lemma ThreeBytesAccepted(c: char)
    requires 0x800 <= c as int < 0x10000
    ensures LeadOf(Utf8Char(c)[0]).needed == |Utf8Char(c)| - 1
    ensures AcceptedCount(Utf8Char(c)[1..], LeadOf(Utf8Char(c)[0]).needed, LeadOf(Utf8Char(c)[0]).lower, LeadOf(Utf8Char(c)[0]).upper)
      == |Utf8Char(c)| - 1
  {
    var n := c as int;
    var bs := Utf8Char(c);
    assert bs == [0xE0 + n / 4096, 0x80 + (n / 64) % 64, 0x80 + n % 64];
    assert n / 4096 == 0 ==> (n / 64) % 64 >= 0x20;
    assert n / 4096 == 13 ==> (n / 64) % 64 < 0x20;
    var l := LeadOf(bs[0]);
    assert l.needed == 2;
    AcceptAll(bs[1..], l.needed, l.lower, l.upper);
  }

  lemma FourBytesAccepted(c: char)
    requires 0x10000 <= c as int
    ensures LeadOf(Utf8Char(c)[0]).needed == |Utf8Char(c)| - 1
    ensures AcceptedCount(Utf8Char(c)[1..], LeadOf(Utf8Char(c)[0]).needed, LeadOf(Utf8Char(c)[0]).lower, LeadOf(Utf8Char(c)[0]).upper)
      == |Utf8Char(c)| - 1
  {
    var n := c as int;
    var bs := Utf8Char(c);
    assert bs == [0xF0 + n / 262144, 0x80 + (n / 4096) % 64, 0x80 + (n / 64) % 64, 0x80 + n % 64];
    assert n / 262144 == 0 ==> (n / 4096) % 64 >= 0x10;
    assert n / 262144 == 4 ==> (n / 4096) % 64 < 0x10;
    var l := LeadOf(bs[0]);
    assert l.needed == 3;
    AcceptAll(bs[1..], l.needed, l.lower, l.upper);
  }

  lemma DecodeLossyChar(c: char, rest: seq<byte>)
    ensures DecodeLossy(Utf8Char(c) + rest) == [c] + DecodeLossy(rest)
  {
    var bs := Utf8Char(c);
    var t := bs + rest;
    if c as int < 0x80 {
      assert t[1..] == rest;
    } else {
      Utf8CharAccepted(c);
      var l := LeadOf(t[0]);
      assert t[1..] == bs[1..] + rest;
      AcceptAll(t[1..], l.needed, l.lower, l.upper) by {
        AcceptedBytes(bs[1..], l.needed, l.lower, l.upper);
      }
      DecodeSequenceOfChar(c);
      assert t[..l.needed + 1] == bs;
      assert t[l.needed + 1..] == rest;
    }
  }

  lemma {:induction false} DecodeLossyEncode(s: string)
    ensures DecodeLossy(Utf8Encode(s)) == s
  {
    if |s| > 0 {
      DecodeLossyChar(s[0], Utf8Encode(s[1..]));
      DecodeLossyEncode(s[1..]);
      assert [s[0]] + s[1..] == s;
    }
  }

  /** Only U+FEFF encodes to the byte-order mark. */
  lemma ByteOrderMark(c: char)
    requires |Utf8Char(c)| >= 3
    requires Utf8Char(c)[0] == 0xEF && Utf8Char(c)[1] == 0xBB && Utf8Char(c)[2] == 0xBF
    ensures c == '\U{FEFF}'
  {
    var n := c as int;
    assert n == 4096 * (n / 4096) + 64 * ((n / 64) % 64) + n % 64;
  }

  lemma MarkEncoding()
    ensures Utf8Char('\U{FEFF}') == [0xEF, 0xBB, 0xBF]
  {
  }

  lemma NoByteOrderMark(c: char, rest: seq<byte>)
    requires c != '\U{FEFF}'
    ensures var t := Utf8Char(c) + rest; !(|t| >= 3 && t[0] == 0xEF && t[1] == 0xBB && t[2] == 0xBF)
  {
    var bs := Utf8Char(c);
    var t := bs + rest;
    if |bs| == 3 && t[0] == 0xEF && t[1] == 0xBB && t[2] == 0xBF {
      assert bs[0] == t[0] && bs[1] == t[1] && bs[2] == t[2];
      ByteOrderMark(c);
    }
  }

  /**
   * Decoding what `TextEncoder` produced gives the string back, except that a
   * leading U+FEFF is taken for a byte-order mark and dropped.
   */
  lemma TextRoundTrip(s: string)
    ensures TextDecode(Utf8Encode(s)) == if |s| > 0 && s[0] == '\U{FEFF}' then s[1..] else s
  {
    var bs := Utf8Encode(s);
    if |s| > 0 {
      assert bs == Utf8Char(s[0]) + Utf8Encode(s[1..]);
      if s[0] == '\U{FEFF}' {
        MarkEncoding();
        assert bs[3..] == Utf8Encode(s[1..]);
        DecodeLossyEncode(s[1..]);
      } else {
        NoByteOrderMark(s[0], Utf8Encode(s[1..]));
        DecodeLossyEncode(s);
      }
    } else {
      DecodeLossyEncode(s);
    }
  }
}
