/** `encodeURIComponent` (ECMAScript section 19.2.6.5): each character outside
    the unescaped set becomes the percent-encoded bytes of its UTF-8 encoding
    (RFC 3986 section 2.1, RFC 3629 section 3). Characters here are Unicode
    scalar values, so the surrogate pairs of the JavaScript string do not arise.
    `PercentDecode` is the inverse used to state the round trip. */
module Uri {
  import opened Js

  /** The characters `encodeURIComponent` leaves alone: letters, digits and
      `- _ . ! ~ * ' ( )`. */
  predicate IsUnescaped(c: char)
  {
    ('A' <= c <= 'Z') || ('a' <= c <= 'z') || ('0' <= c <= '9')
    || c == '-' || c == '_' || c == '.' || c == '!' || c == '~'
    || c == '*' || c == '\'' || c == '(' || c == ')'
  }

  predicate IsByte(b: int)
  {
    0 <= b < 256
  }

  /** The UTF-8 bytes of one scalar value. */
  function Utf8(c: char): (bytes: seq<int>)
    ensures 1 <= |bytes| <= 4
    ensures forall i :: 0 <= i < |bytes| ==> IsByte(bytes[i])
  {
    var n := c as int;
    if n < 0x80 then [n]
    else if n < 0x800 then [0xC0 + n / 64, 0x80 + n % 64]
    else if n < 0x1_0000 then [0xE0 + n / 4096, 0x80 + (n / 64) % 64, 0x80 + n % 64]
    else [0xF0 + n / 262144, 0x80 + (n / 4096) % 64, 0x80 + (n / 64) % 64, 0x80 + n % 64]
  }

  /** Upper-case hexadecimal digit, as `encodeURIComponent` writes them. */
  function HexDigit(d: int): char
    requires 0 <= d < 16
  {
    if d < 10 then ('0' as int + d) as char else ('A' as int + d - 10) as char
  }

  function HexValue(c: char): Option<int>
  {
    if '0' <= c <= '9' then Some(c as int - '0' as int)
    else if 'A' <= c <= 'F' then Some(c as int - 'A' as int + 10)
    else if 'a' <= c <= 'f' then Some(c as int - 'a' as int + 10)
    else None
  }

  /** One byte as a `%XY` triplet. */
  function PercentByte(b: int): string
    requires IsByte(b)
  {
    ['%', HexDigit(b / 16), HexDigit(b % 16)]
  }

  function PercentBytes(bytes: seq<int>): string
    requires forall i :: 0 <= i < |bytes| ==> IsByte(bytes[i])
    decreases |bytes|
  {
    if |bytes| == 0 then "" else PercentByte(bytes[0]) + PercentBytes(bytes[1..])
  }

  function EncodeChar(c: char): string
  {
    if IsUnescaped(c) then [c] else PercentBytes(Utf8(c))
  }

  /** `encodeURIComponent(s)`. */
  function EncodeURIComponent(s: string): string
    decreases |s|
  {
    if |s| == 0 then "" else EncodeChar(s[0]) + EncodeURIComponent(s[1..])
  }

  /** The characters that can appear in a percent-encoded component. */
  predicate IsUriSafe(c: char)
  {
    IsUnescaped(c) || c == '%'
  }

  // ---------------------------------------------------------------------
  // Decoding

  /** Reads one `%XY` triplet. */
  function ReadByte(s: string): Option<(int, string)>
  {
    if |s| >= 3 && s[0] == '%' && HexValue(s[1]).Some? && HexValue(s[2]).Some?
    then Some((16 * HexValue(s[1]).value + HexValue(s[2]).value, s[3..]))
    else None
  }

  /** Reads one continuation byte `10xxxxxx` and yields its low six bits. */
  function ReadContinuation(s: string): Option<(int, string)>
  {
    match ReadByte(s)
    case Some((b, rest)) => if 0x80 <= b < 0xC0 then Some((b - 0x80, rest)) else None
    case None => None
  }

  function ScalarChar(cp: int): Option<char>
  {
    if (0 <= cp < 0xD800) || (0xE000 <= cp < 0x11_0000) then Some(cp as char) else None
  }

  /** Reads the continuation bytes of a multi-byte sequence whose lead byte
      carried `acc`, and the code point they spell out. */
  function ReadTail(acc: int, count: nat, s: string): Option<(int, string)>
    decreases count
  {
    if count == 0 then Some((acc, s))
    else match ReadContinuation(s)
      case Some((bits, rest)) => ReadTail(acc * 64 + bits, count - 1, rest)
      case None => None
  }

  /** What a lead byte announces: its payload bits, the number of
      continuation bytes, and the least code point such a sequence may carry. */
  function Lead(b: int): Option<(int, nat, int)>
  {
    if 0 <= b < 0x80 then Some((b, 0, 0))
    else if 0xC0 <= b < 0xE0 then Some((b - 0xC0, 1, 0x80))
    else if 0xE0 <= b < 0xF0 then Some((b - 0xE0, 2, 0x800))
    else if 0xF0 <= b < 0xF8 then Some((b - 0xF0, 3, 0x1_0000))
    else None
  }

  /** Decodes one character: a literal one, or one UTF-8 sequence of triplets. */
  function DecodeChar(s: string): Option<(char, string)>
    requires |s| > 0
  {
    if s[0] != '%' then Some((s[0], s[1..]))
    else match ReadByte(s)
      case None => None
      case Some((b, rest)) =>
        match Lead(b)
        case None => None
        case Some((bits, count, least)) =>
          match ReadTail(bits, count, rest)
          case None => None
          case Some((cp, rest')) =>
            // a shortest-form sequence only
            if cp < least then None
            else match ScalarChar(cp)
              case None => None
              case Some(c) => Some((c, rest'))
  }

  function PercentDecode(s: string): Option<string>
    decreases |s|
  {
    if |s| == 0 then Some("")
    else match DecodeChar(s)
      case None => None
      case Some((c, rest)) =>
        if |rest| < |s| then
          match PercentDecode(rest)
          case None => None
          case Some(t) => Some([c] + t)
        else None
  }

  // ---------------------------------------------------------------------
  // Round trip

  lemma HexRoundTrip(d: int)
    requires 0 <= d < 16
    ensures HexValue(HexDigit(d)) == Some(d)
  {
  }

  lemma {:induction false} ReadPercentByte(b: int, rest: string)
    requires IsByte(b)
    ensures ReadByte(PercentByte(b) + rest) == Some((b, rest))
  {
    var s := PercentByte(b) + rest;
    HexRoundTrip(b / 16);
    HexRoundTrip(b % 16);
    assert s[1] == HexDigit(b / 16) && s[2] == HexDigit(b % 16);
    assert s[3..] == rest;
  }

  lemma {:induction false} ReadContinuationByte(bits: int, rest: string)
    requires 0 <= bits < 64
    ensures ReadContinuation(PercentBytes([0x80 + bits]) + rest) == Some((bits, rest))
  {
    assert PercentBytes([0x80 + bits]) == PercentByte(0x80 + bits);
    ReadPercentByte(0x80 + bits, rest);
  }

  lemma {:induction false} PercentBytesCons(b: int, bytes: seq<int>)
    requires IsByte(b) && forall i :: 0 <= i < |bytes| ==> IsByte(bytes[i])
    ensures PercentBytes([b] + bytes) == PercentBytes([b]) + PercentBytes(bytes)
  {
    assert ([b] + bytes)[1..] == bytes;
    assert [b][1..] == [];
    assert PercentBytes([b]) == PercentByte(b) + PercentBytes([]);
  }

  lemma {:induction false} ReadTailStep(acc: int, count: nat, bits: int, rest: string)
    requires count > 0 && 0 <= bits < 64
    ensures ReadTail(acc, count, PercentByte(0x80 + bits) + rest) == ReadTail(acc * 64 + bits, count - 1, rest)
  {
    ReadContinuationByte(bits, rest);
    assert PercentBytes([0x80 + bits]) == PercentByte(0x80 + bits);
  }

  /** Dividing by 64 twice is dividing by 4096. */
  lemma Div4096(n: int)
    requires n >= 0
    ensures n / 4096 == (n / 64) / 64
  {
    var a := n / 64;
    var b := a / 64;
    assert n == 64 * a + n % 64;
    assert a == 64 * b + a % 64;
    assert n == 4096 * b + (64 * (a % 64) + n % 64);
  }

  lemma Div262144(n: int)
    requires n >= 0
    ensures n / 262144 == (n / 4096) / 64
  {
    var a := n / 4096;
    var b := a / 64;
    assert n == 4096 * a + n % 4096;
    assert a == 64 * b + a % 64;
    assert n == 262144 * b + (4096 * (a % 64) + n % 4096);
  }

  /** A lead triplet followed by the continuation triplets it announces
      decodes to the code point they spell out. */
  lemma {:induction false} DecodeSequence(lead: int, s: string, cp: int, rest: string)
    requires IsByte(lead) && Lead(lead).Some?
    requires ReadTail(Lead(lead).value.0, Lead(lead).value.1, s) == Some((cp, rest))
    requires cp >= Lead(lead).value.2 && ScalarChar(cp).Some?
    ensures |PercentByte(lead) + s| > 0
    ensures DecodeChar(PercentByte(lead) + s) == Some((ScalarChar(cp).value, rest))
  {
    ReadPercentByte(lead, s);
  }

  lemma {:induction false} DecodeTwoBytes(c: char, rest: string)
    requires 0x80 <= c as int < 0x800
    ensures |EncodeChar(c) + rest| > 0
    ensures DecodeChar(EncodeChar(c) + rest) == Some((c, rest))
  {
    var n := c as int;
    var x, y := n / 64, n % 64;
    assert Utf8(c) == [0xC0 + x, 0x80 + y];
    EncodeTwoParts(c, x, y, rest);
    DecodeTwoParts(c, x, y, rest);
  }

  /** A character outside ASCII is always escaped. */
  lemma EncodeEscaped(c: char)
    requires 0x80 <= c as int
    ensures EncodeChar(c) == PercentBytes(Utf8(c))
  {
    assert !IsUnescaped(c);
  }

  lemma EncodeTwoParts(c: char, x: int, y: int, rest: string)
    requires 0x80 <= c as int < 0x800 && Utf8(c) == [0xC0 + x, 0x80 + y]
    requires 2 <= x < 32 && 0 <= y < 64
    ensures EncodeChar(c) + rest == PercentByte(0xC0 + x) + (PercentByte(0x80 + y) + rest)
  {
    EncodeEscaped(c);
    assert [0xC0 + x, 0x80 + y][1..] == [0x80 + y];
    assert [0x80 + y][1..] == [];
    assert PercentBytes([0xC0 + x, 0x80 + y]) == PercentByte(0xC0 + x) + PercentBytes([0x80 + y]);
    assert PercentBytes([0x80 + y]) == PercentByte(0x80 + y) + PercentBytes([]);
  }

  /** A two-byte sequence spelled out from its lead and continuation bits. */
  lemma DecodeTwoParts(c: char, x: int, y: int, rest: string)
    requires 2 <= x < 32 && 0 <= y < 64 && c as int == x * 64 + y
    ensures |PercentByte(0xC0 + x) + (PercentByte(0x80 + y) + rest)| > 0
    ensures DecodeChar(PercentByte(0xC0 + x) + (PercentByte(0x80 + y) + rest)) == Some((c, rest))
  {
    ReadTailStep(x, 1, y, rest);
    assert Lead(0xC0 + x) == Some((x, 1, 0x80));
    assert ScalarChar(c as int) == Some(c);
    DecodeSequence(0xC0 + x, PercentByte(0x80 + y) + rest, c as int, rest);
  }

  lemma Utf8Three(c: char, x: int, y: int, z: int)
    requires 0x800 <= c as int < 0x1_0000
    requires x == c as int / 4096 && y == (c as int / 64) % 64 && z == c as int % 64
    ensures Utf8(c) == [0xE0 + x, 0x80 + y, 0x80 + z]
    ensures (x * 64 + y) * 64 + z == c as int && 0 <= x < 16 && 0 <= y < 64 && 0 <= z < 64
  {
    var n := c as int;
    Div4096(n);
    assert n / 64 == (n / 4096) * 64 + y;
  }

  lemma PercentBytesThree(b0: int, b1: int, b2: int)
    requires IsByte(b0) && IsByte(b1) && IsByte(b2)
    ensures PercentBytes([b0, b1, b2]) == PercentByte(b0) + (PercentByte(b1) + PercentByte(b2))
  {
    assert [b0, b1, b2][1..] == [b1, b2];
    assert [b1, b2][1..] == [b2];
    assert [b2][1..] == [];
    assert PercentBytes([b0, b1, b2]) == PercentByte(b0) + PercentBytes([b1, b2]);
    assert PercentBytes([b1, b2]) == PercentByte(b1) + PercentBytes([b2]);
    assert PercentBytes([b2]) == PercentByte(b2) + PercentBytes([]);
  }

  /** Two continuation triplets complete a sequence announced with two. */
  lemma ReadTailTwo(acc: int, y: int, z: int, rest: string)
    requires 0 <= y < 64 && 0 <= z < 64
    ensures ReadTail(acc, 2, PercentByte(0x80 + y) + (PercentByte(0x80 + z) + rest))
         == Some(((acc * 64 + y) * 64 + z, rest))
  {
    ReadTailStep(acc, 2, y, PercentByte(0x80 + z) + rest);
    ReadTailStep(acc * 64 + y, 1, z, rest);
  }

  lemma {:induction false} DecodeThreeBytes(c: char, rest: string)
    requires 0x800 <= c as int < 0x1_0000
    ensures |EncodeChar(c) + rest| > 0
    ensures DecodeChar(EncodeChar(c) + rest) == Some((c, rest))
  {
    var n := c as int;
    var x, y, z := n / 4096, (n / 64) % 64, n % 64;
    Utf8Three(c, x, y, z);
    EncodeThreeParts(c, x, y, z, rest);
    DecodeThreeParts(c, x, y, z, rest);
  }

  lemma EncodeThreeParts(c: char, x: int, y: int, z: int, rest: string)
    requires 0x800 <= c as int < 0x1_0000 && Utf8(c) == [0xE0 + x, 0x80 + y, 0x80 + z]
    requires 0 <= x < 16 && 0 <= y < 64 && 0 <= z < 64
    ensures EncodeChar(c) + rest == PercentByte(0xE0 + x) + (PercentByte(0x80 + y) + (PercentByte(0x80 + z) + rest))
  {
    EncodeEscaped(c);
    PercentBytesThree(0xE0 + x, 0x80 + y, 0x80 + z);
    AppendThree(PercentByte(0xE0 + x), PercentByte(0x80 + y), PercentByte(0x80 + z), rest);
  }

  lemma AppendThree<T>(p: seq<T>, q: seq<T>, r: seq<T>, t: seq<T>)
    ensures p + (q + r) + t == p + (q + (r + t))
  {
  }

  /** A three-byte sequence spelled out from its lead and continuation bits. */
  lemma DecodeThreeParts(c: char, x: int, y: int, z: int, rest: string)
    requires 0 <= x < 16 && 0 <= y < 64 && 0 <= z < 64
    requires c as int == (x * 64 + y) * 64 + z && c as int >= 0x800
    ensures |PercentByte(0xE0 + x) + (PercentByte(0x80 + y) + (PercentByte(0x80 + z) + rest))| > 0
    ensures DecodeChar(PercentByte(0xE0 + x) + (PercentByte(0x80 + y) + (PercentByte(0x80 + z) + rest))) == Some((c, rest))
  {
    ReadTailTwo(x, y, z, rest);
    assert Lead(0xE0 + x) == Some((x, 2, 0x800));
    assert ScalarChar(c as int) == Some(c);
    DecodeSequence(0xE0 + x, PercentByte(0x80 + y) + (PercentByte(0x80 + z) + rest), c as int, rest);
  }

  lemma Utf8Four(c: char, w: int, x: int, y: int, z: int)
    requires 0x1_0000 <= c as int
    requires w == c as int / 262144 && x == (c as int / 4096) % 64
    requires y == (c as int / 64) % 64 && z == c as int % 64
    ensures Utf8(c) == [0xF0 + w, 0x80 + x, 0x80 + y, 0x80 + z]
    ensures ((w * 64 + x) * 64 + y) * 64 + z == c as int
    ensures 0 <= w < 8 && 0 <= x < 64 && 0 <= y < 64 && 0 <= z < 64
  {
    var n := c as int;
    Div4096(n);
    Div262144(n);
    assert n / 4096 == w * 64 + x;
    assert n / 64 == (n / 4096) * 64 + y;
  }

  lemma PercentBytesFour(b0: int, b1: int, b2: int, b3: int)
    requires IsByte(b0) && IsByte(b1) && IsByte(b2) && IsByte(b3)
    ensures PercentBytes([b0, b1, b2, b3])
            == PercentByte(b0) + (PercentByte(b1) + (PercentByte(b2) + PercentByte(b3)))
  {
    assert [b0, b1, b2, b3][1..] == [b1, b2, b3];
    assert PercentBytes([b0, b1, b2, b3]) == PercentByte(b0) + PercentBytes([b1, b2, b3]);
    PercentBytesThree(b1, b2, b3);
  }

  lemma {:induction false} DecodeFourBytes(c: char, rest: string)
    requires 0x1_0000 <= c as int
    ensures |EncodeChar(c) + rest| > 0
    ensures DecodeChar(EncodeChar(c) + rest) == Some((c, rest))
  {
    var n := c as int;
    var w, x, y, z := n / 262144, (n / 4096) % 64, (n / 64) % 64, n % 64;
    Utf8Four(c, w, x, y, z);
    EncodeFourParts(c, w, x, y, z, rest);
    DecodeFourParts(c, w, x, y, z, rest);
  }

  lemma EncodeFourParts(c: char, w: int, x: int, y: int, z: int, rest: string)
    requires 0x1_0000 <= c as int && Utf8(c) == [0xF0 + w, 0x80 + x, 0x80 + y, 0x80 + z]
    requires 0 <= w < 8 && 0 <= x < 64 && 0 <= y < 64 && 0 <= z < 64
    ensures EncodeChar(c) + rest
         == PercentByte(0xF0 + w) + (PercentByte(0x80 + x) + (PercentByte(0x80 + y) + (PercentByte(0x80 + z) + rest)))
  {
    EncodeEscaped(c);
    PercentBytesFour(0xF0 + w, 0x80 + x, 0x80 + y, 0x80 + z);
    AppendFour(PercentByte(0xF0 + w), PercentByte(0x80 + x), PercentByte(0x80 + y), PercentByte(0x80 + z), rest);
  }

  lemma AppendFour<T>(o: seq<T>, p: seq<T>, q: seq<T>, r: seq<T>, t: seq<T>)
    ensures o + (p + (q + r)) + t == o + (p + (q + (r + t)))
  {
  }

  /** A four-byte sequence spelled out from its lead and continuation bits. */
  lemma DecodeFourParts(c: char, w: int, x: int, y: int, z: int, rest: string)
    requires 0 <= w < 8 && 0 <= x < 64 && 0 <= y < 64 && 0 <= z < 64
    requires c as int == ((w * 64 + x) * 64 + y) * 64 + z && c as int >= 0x1_0000
    ensures |PercentByte(0xF0 + w) + (PercentByte(0x80 + x) + (PercentByte(0x80 + y) + (PercentByte(0x80 + z) + rest)))| > 0
    ensures DecodeChar(PercentByte(0xF0 + w) + (PercentByte(0x80 + x) + (PercentByte(0x80 + y) + (PercentByte(0x80 + z) + rest))))
         == Some((c, rest))
  {
    var n := c as int;
    var t2 := PercentByte(0x80 + y) + (PercentByte(0x80 + z) + rest);
    ReadTailStep(w, 3, x, t2);
    ReadTailTwo(w * 64 + x, y, z, rest);
    assert Lead(0xF0 + w) == Some((w, 3, 0x1_0000));
    assert ScalarChar(n) == Some(c);
    DecodeSequence(0xF0 + w, PercentByte(0x80 + x) + t2, n, rest);
  }

  /** Decoding the encoding of one character gives that character back. */
  lemma {:induction false} DecodeEncodeChar(c: char, rest: string)
    ensures |EncodeChar(c) + rest| > 0
    ensures DecodeChar(EncodeChar(c) + rest) == Some((c, rest))
  {
    var n := c as int;
    if IsUnescaped(c) {
      assert (EncodeChar(c) + rest)[1..] == rest;
    } else if n < 0x80 {
      assert Utf8(c) == [n] && [n][1..] == [];
      assert EncodeChar(c) == PercentByte(n) + PercentBytes([]);
      ReadPercentByte(n, rest);
    } else if n < 0x800 {
      DecodeTwoBytes(c, rest);
    } else if n < 0x1_0000 {
      DecodeThreeBytes(c, rest);
    } else {
      DecodeFourBytes(c, rest);
    }
  }

  /** Percent-decoding undoes `encodeURIComponent` on every string. */
  lemma {:induction false} DecodeEncode(s: string)
    ensures PercentDecode(EncodeURIComponent(s)) == Some(s)
    decreases |s|
  {
    if |s| > 0 {
      DecodeEncode(s[1..]);
      DecodeStep(s[0], EncodeURIComponent(s[1..]), s[1..]);
      assert [s[0]] + s[1..] == s;
    }
  }

  /** One encoded character in front of a decodable text. */
  lemma DecodeStep(c: char, rest: string, t: string)
    requires PercentDecode(rest) == Some(t)
    ensures PercentDecode(EncodeChar(c) + rest) == Some([c] + t)
  {
    DecodeEncodeChar(c, rest);
    assert |EncodeChar(c)| > 0 by {
      if !IsUnescaped(c) {
        assert |PercentBytes(Utf8(c))| > 0;
      }
    }
  }

  lemma {:induction false} PercentBytesSafe(bytes: seq<int>)
    requires forall i :: 0 <= i < |bytes| ==> IsByte(bytes[i])
    ensures forall i :: 0 <= i < |PercentBytes(bytes)| ==> IsUriSafe(PercentBytes(bytes)[i])
    decreases |bytes|
  {
    if |bytes| > 0 {
      PercentBytesSafe(bytes[1..]);
    }
  }

  predicate AllSafe(s: string)
  {
    forall i :: 0 <= i < |s| ==> IsUriSafe(s[i])
  }

  /** The encoding holds only unescaped characters and `%`, and every `%`
      starts a `%XY` triplet, so it can stand in a `data:` URL without
      further quoting. */
  lemma {:induction false} EncodedIsSafe(s: string)
    ensures forall i :: 0 <= i < |EncodeURIComponent(s)| ==> IsUriSafe(EncodeURIComponent(s)[i])
    ensures Triplets(EncodeURIComponent(s))
    decreases |s|
  {
    if |s| > 0 {
      EncodedIsSafe(s[1..]);
      EncodeCharSafe(s[0]);
      SafeConcat(EncodeChar(s[0]), EncodeURIComponent(s[1..]));
      EncodeCharTriplets(s[0]);
      TripletsConcat(EncodeChar(s[0]), EncodeURIComponent(s[1..]));
    }
  }

  /** Every `%` is followed by two hexadecimal digits. */
  predicate Triplets(e: string)
  {
    forall i :: 0 <= i < |e| && e[i] == '%' ==> i + 2 < |e| && HexValue(e[i + 1]).Some? && HexValue(e[i + 2]).Some?
  }

  lemma HexDigitValue(d: int)
    requires 0 <= d < 16
    ensures HexValue(HexDigit(d)) == Some(d)
  {
  }

  lemma PercentByteTriplets(b: int)
    requires IsByte(b)
    ensures Triplets(PercentByte(b))
  {
    HexDigitValue(b / 16);
    HexDigitValue(b % 16);
  }

  lemma TripletsConcat(a: string, b: string)
    requires Triplets(a) && Triplets(b)
    ensures Triplets(a + b)
  {
    forall i | 0 <= i < |a + b| && (a + b)[i] == '%'
      ensures i + 2 < |a + b| && HexValue((a + b)[i + 1]).Some? && HexValue((a + b)[i + 2]).Some?
    {
      if i < |a| {
        assert a[i] == '%';
      } else {
        assert b[i - |a|] == '%';
      }
    }
  }

  lemma {:induction false} PercentBytesTriplets(bytes: seq<int>)
    requires forall i :: 0 <= i < |bytes| ==> IsByte(bytes[i])
    ensures Triplets(PercentBytes(bytes))
    decreases |bytes|
  {
    if |bytes| > 0 {
      PercentBytesTriplets(bytes[1..]);
      PercentByteTriplets(bytes[0]);
      TripletsConcat(PercentByte(bytes[0]), PercentBytes(bytes[1..]));
    }
  }

  lemma EncodeCharTriplets(c: char)
    ensures Triplets(EncodeChar(c))
  {
    if !IsUnescaped(c) {
      PercentBytesTriplets(Utf8(c));
    }
  }

  lemma EncodeCharSafe(c: char)
    ensures AllSafe(EncodeChar(c))
  {
    if !IsUnescaped(c) {
      PercentBytesSafe(Utf8(c));
    }
  }

  lemma SafeConcat(a: string, b: string)
    requires AllSafe(a) && AllSafe(b)
    ensures AllSafe(a + b)
  {
    forall i | 0 <= i < |a + b| ensures IsUriSafe((a + b)[i]) {
      if i >= |a| {
        assert (a + b)[i] == b[i - |a|];
      }
    }
  }

  /** A string of unescaped characters is its own encoding. */
  lemma {:induction false} EncodeUnescaped(s: string)
    requires forall i :: 0 <= i < |s| ==> IsUnescaped(s[i])
    ensures EncodeURIComponent(s) == s
    decreases |s|
  {
    if |s| > 0 {
      EncodeUnescaped(s[1..]);
      assert [s[0]] + s[1..] == s;
    }
  }
}
