/** `encodeURIComponent` and `decodeURIComponent` (section 19.2.6 "URI Handling
    Functions" of ECMA-262): every character outside the unescaped set becomes the
    UTF-8 bytes of its code point (RFC 3629), each written as a `%XX` triplet
    (section 2.1 of RFC 3986). Dafny strings hold Unicode scalar values, so the
    lone-surrogate case in which `encodeURIComponent` throws cannot arise. */
module Uri {
  import opened Wrappers

  /** One octet. */
  type Byte = b: int | 0 <= b < 256

  /** The characters `encodeURIComponent` leaves as they are: uriAlpha,
      DecimalDigit and uriMark `- _ . ! ~ * ' ( )`. */
  predicate IsUnescaped(c: char) {
    ('A' <= c <= 'Z') || ('a' <= c <= 'z') || ('0' <= c <= '9')
    || c == '-' || c == '_' || c == '.' || c == '!' || c == '~' || c == '*'
    || c == '\'' || c == '(' || c == ')'
  }

  /** The upper-case hexadecimal digit of `d`, as the encoder writes it. */
  function HexDigit(d: nat): (c: char)
    requires d < 16
    ensures IsUnescaped(c)
  {
    if d < 10 then ('0' as int + d) as char else ('A' as int + d - 10) as char
  }

  /** The value of a hexadecimal digit of either case, as the decoder reads it. */
  function HexValue(c: char): (r: Option<nat>)
    ensures r.Some? ==> r.value < 16
  {
    if '0' <= c <= '9' then Some(c as int - '0' as int)
    else if 'A' <= c <= 'F' then Some(c as int - 'A' as int + 10)
    else if 'a' <= c <= 'f' then Some(c as int - 'a' as int + 10)
    else None
  }

  lemma HexRoundTrip(d: nat)
    requires d < 16
    ensures HexValue(HexDigit(d)) == Some(d)
  {
  }

  /** The UTF-8 encoding of one code point: one byte below 0x80, then two, three
      or four bytes, the first carrying the length and the others six payload bits
      each behind the marker bits `10`. */
  function Utf8(c: char): (bs: seq<Byte>)
    ensures 1 <= |bs| <= 4
  {
    var n := c as int;
    var a := n / 64;
    var b := a / 64;
    if n < 0x80 then [n]
    else if n < 0x800 then [0xC0 + a, 0x80 + n % 64]
    else if n < 0x1_0000 then [0xE0 + b, 0x80 + a % 64, 0x80 + n % 64]
    else [0xF0 + b / 64, 0x80 + b % 64, 0x80 + a % 64, 0x80 + n % 64]
  }

  /** Octets as `%XX` triplets. */
  function Percents(bs: seq<Byte>): (t: string)
    ensures |t| == 3 * |bs|
  {
    if bs == [] then [] else ['%', HexDigit(bs[0] / 16), HexDigit(bs[0] % 16)] + Percents(bs[1..])
  }

  /** One character as `encodeURIComponent` writes it. */
  function EncodeChar(c: char): (t: string)
    ensures |t| > 0
  {
    if IsUnescaped(c) then [c] else Percents(Utf8(c))
  }

  /** `encodeURIComponent(s)`: what it writes holds only unescaped characters and
      the `%` that opens each triplet. */
  function Encode(s: string): (t: string)
    ensures forall i :: 0 <= i < |t| ==> IsUnescaped(t[i]) || t[i] == '%'
  {
    if s == [] then []
    else
      var head, rest := EncodeChar(s[0]), Encode(s[1..]);
      assert forall i :: 0 <= i < |head| ==> IsUnescaped(head[i]) || head[i] == '%' by {
        if !IsUnescaped(s[0]) { PercentsChars(Utf8(s[0])); }
      }
      head + rest
  }

  lemma {:induction false} PercentsChars(bs: seq<Byte>)
    ensures forall i :: 0 <= i < |Percents(bs)| ==> IsUnescaped(Percents(bs)[i]) || Percents(bs)[i] == '%'
  {
    if bs != [] {
      PercentsChars(bs[1..]);
      var t := Percents(bs);
      forall i | 3 <= i < |t| ensures t[i] == Percents(bs[1..])[i - 3] { }
    }
  }

  /** The triplet `%XX` at position `k`, read as the octet it denotes. */
  function ByteAt(t: string, k: nat): (r: Option<Byte>)
    ensures r.Some? ==> k + 3 <= |t|
  {
    if k + 3 <= |t| && t[k] == '%' then
      match (HexValue(t[k + 1]), HexValue(t[k + 2]))
      case (Some(h), Some(l)) => Some(16 * h + l)
      case _ => None
    else None
  }

  /** The six payload bits of the continuation octet at position `k`. */
  function Continuation(t: string, k: nat): (r: Option<nat>)
    ensures r.Some? ==> r.value < 64 && k + 3 <= |t|
  {
    match ByteAt(t, k)
    case Some(b) => if 0x80 <= b < 0xC0 then Some(b - 0x80) else None
    case None => None
  }

  /** The first character of `t` as `decodeURIComponent` reads it, with the number of
      characters it takes up; None where the standard throws a URIError: a `%` not
      followed by two hexadecimal digits, a lead octet that starts no UTF-8 sequence,
      a missing or wrong continuation octet, an over-long form, a surrogate or a
      value above 0x10FFFF. */
  function DecodeOne(t: string): (r: Option<(char, nat)>)
    requires t != []
    ensures r.Some? ==> 1 <= r.value.1 <= |t|
  {
    if t[0] != '%' then Some((t[0], 1))
    else match ByteAt(t, 0)
      case None => None
      case Some(b0) =>
        if b0 < 0x80 then Some((b0 as char, 3))
        else if 0xC0 <= b0 < 0xE0 then
          match Continuation(t, 3)
          case None => None
          case Some(x1) =>
            var n := (b0 - 0xC0) * 64 + x1;
            if n < 0x80 then None else Some((n as char, 6))
        else if 0xE0 <= b0 < 0xF0 then
          match (Continuation(t, 3), Continuation(t, 6))
          case (Some(x1), Some(x2)) =>
            var n := ((b0 - 0xE0) * 64 + x1) * 64 + x2;
            if n < 0x800 || (0xD800 <= n <= 0xDFFF) then None else Some((n as char, 9))
          case _ => None
        else if 0xF0 <= b0 < 0xF8 then
          match (Continuation(t, 3), Continuation(t, 6), Continuation(t, 9))
          case (Some(x1), Some(x2), Some(x3)) =>
            var n := (((b0 - 0xF0) * 64 + x1) * 64 + x2) * 64 + x3;
            if n < 0x1_0000 || n > 0x10_FFFF then None else Some((n as char, 12))
          case _ => None
        else None
  }

  /** `decodeURIComponent(t)`; None where it throws a URIError. */
  function Decode(t: string): Option<string>
    decreases |t|
  {
    if t == [] then Some([])
    else match DecodeOne(t)
      case None => None
      case Some((c, k)) =>
        match Decode(t[k..])
        case None => None
        case Some(r) => Some([c] + r)
  }

  /** The triplet for octet `i` of an encoding reads back as that octet. */
  lemma {:induction false} ByteAtPercents(bs: seq<Byte>, rest: string, i: nat)
    requires i < |bs|
    ensures ByteAt(Percents(bs) + rest, 3 * i) == Some(bs[i])
  {
    if i == 0 {
      ByteAtHead(bs, rest);
    } else {
      ByteAtPercents(bs[1..], rest, i - 1);
      var u, v := Percents(bs) + rest, Percents(bs[1..]) + rest;
      assert u == ['%', HexDigit(bs[0] / 16), HexDigit(bs[0] % 16)] + v;
      assert u[3 * i] == v[3 * i - 3] && u[3 * i + 1] == v[3 * i - 2] && u[3 * i + 2] == v[3 * i - 1];
    }
  }

  lemma ByteAtHead(bs: seq<Byte>, rest: string)
    requires |bs| > 0
    ensures ByteAt(Percents(bs) + rest, 0) == Some(bs[0])
  {
    var h, l := bs[0] / 16, bs[0] % 16;
    HexRoundTrip(h);
    HexRoundTrip(l);
    var u := Percents(bs) + rest;
    assert u[0] == '%' && u[1] == HexDigit(h) && u[2] == HexDigit(l);
  }

  /** Decoding reads an encoded character back in one step, using up exactly its encoding. */
  lemma DecodeOneEncoded(c: char, rest: string)
    ensures DecodeOne(EncodeChar(c) + rest) == Some((c, |EncodeChar(c)|))
  {
    if !IsUnescaped(c) {
      var n := |Utf8(c)|;
      if n == 1 {
        DecodeOneByte(c, rest);
      } else if n == 2 {
        DecodeTwoBytes(c, rest);
      } else if n == 3 {
        DecodeThreeBytes(c, rest);
      } else {
        DecodeFourBytes(c, rest);
      }
    }
  }

  lemma DecodeOneByte(c: char, rest: string)
    requires |Utf8(c)| == 1
    ensures DecodeOne(Percents(Utf8(c)) + rest) == Some((c, 3))
  {
    Utf8Decodes(c);
    ByteAtPercents(Utf8(c), rest, 0);
  }

  lemma DecodeTwoBytes(c: char, rest: string)
    requires |Utf8(c)| == 2
    ensures DecodeOne(Percents(Utf8(c)) + rest) == Some((c, 6))
  {
    var bs := Utf8(c);
    Utf8Decodes(c);
    ByteAtPercents(bs, rest, 0);
    ByteAtPercents(bs, rest, 1);
    DecodeTwo(Percents(bs) + rest, bs[0], bs[1], c);
  }

  lemma DecodeThreeBytes(c: char, rest: string)
    requires |Utf8(c)| == 3
    ensures DecodeOne(Percents(Utf8(c)) + rest) == Some((c, 9))
  {
    var bs := Utf8(c);
    Utf8Decodes(c);
    ByteAtPercents(bs, rest, 0);
    ByteAtPercents(bs, rest, 1);
    ByteAtPercents(bs, rest, 2);
    DecodeThree(Percents(bs) + rest, bs[0], bs[1], bs[2], c);
  }

  lemma DecodeFourBytes(c: char, rest: string)
    requires |Utf8(c)| == 4
    ensures DecodeOne(Percents(Utf8(c)) + rest) == Some((c, 12))
  {
    var bs := Utf8(c);
    Utf8Decodes(c);
    ByteAtPercents(bs, rest, 0);
    ByteAtPercents(bs, rest, 1);
    ByteAtPercents(bs, rest, 2);
    ByteAtPercents(bs, rest, 3);
    DecodeFour(Percents(bs) + rest, bs[0], bs[1], bs[2], bs[3], c);
  }

  lemma DecodeTwo(t: string, b0: int, b1: int, c: char)
    requires t != [] && ByteAt(t, 0) == Some(b0) && ByteAt(t, 3) == Some(b1)
    requires 0xC0 <= b0 < 0xE0 && 0x80 <= b1 < 0xC0
    requires (b0 - 0xC0) * 64 + (b1 - 0x80) == c as int >= 0x80
    ensures DecodeOne(t) == Some((c, 6))
  {
  }

  lemma DecodeThree(t: string, b0: int, b1: int, b2: int, c: char)
    requires t != [] && ByteAt(t, 0) == Some(b0) && ByteAt(t, 3) == Some(b1) && ByteAt(t, 6) == Some(b2)
    requires 0xE0 <= b0 < 0xF0 && 0x80 <= b1 < 0xC0 && 0x80 <= b2 < 0xC0
    requires ((b0 - 0xE0) * 64 + (b1 - 0x80)) * 64 + (b2 - 0x80) == c as int >= 0x800
    ensures DecodeOne(t) == Some((c, 9))
  {
  }

  lemma DecodeFour(t: string, b0: int, b1: int, b2: int, b3: int, c: char)
    requires t != [] && ByteAt(t, 0) == Some(b0) && ByteAt(t, 3) == Some(b1)
    requires ByteAt(t, 6) == Some(b2) && ByteAt(t, 9) == Some(b3)
    requires 0xF0 <= b0 < 0xF8 && 0x80 <= b1 < 0xC0 && 0x80 <= b2 < 0xC0 && 0x80 <= b3 < 0xC0
    requires (((b0 - 0xF0) * 64 + (b1 - 0x80)) * 64 + (b2 - 0x80)) * 64 + (b3 - 0x80) == c as int >= 0x1_0000
    ensures DecodeOne(t) == Some((c, 12))
  {
  }

  /** The arithmetic of UTF-8: each octet sequence has the lead and continuation
      octets the decoder expects, and their payload bits put back together give the
      code point. */
  lemma Utf8Decodes(c: char)
    ensures var bs, n := Utf8(c), c as int;
      var b0, b1, b2, b3 := bs[0] as int, if |bs| > 1 then bs[1] as int else 0,
        if |bs| > 2 then bs[2] as int else 0, if |bs| > 3 then bs[3] as int else 0;
      && (|bs| == 1 ==> b0 == n < 0x80)
      && (|bs| == 2 ==>
           && 0xC0 <= b0 < 0xE0 && 0x80 <= b1 < 0xC0
           && (b0 - 0xC0) * 64 + (b1 - 0x80) == n >= 0x80)
      && (|bs| == 3 ==>
           && 0xE0 <= b0 < 0xF0 && 0x80 <= b1 < 0xC0 && 0x80 <= b2 < 0xC0
           && ((b0 - 0xE0) * 64 + (b1 - 0x80)) * 64 + (b2 - 0x80) == n >= 0x800)
      && (|bs| == 4 ==>
           && 0xF0 <= b0 < 0xF8 && 0x80 <= b1 < 0xC0 && 0x80 <= b2 < 0xC0 && 0x80 <= b3 < 0xC0
           && (((b0 - 0xF0) * 64 + (b1 - 0x80)) * 64 + (b2 - 0x80)) * 64 + (b3 - 0x80) == n >= 0x1_0000)
  {
    var n := c as int;
    var a := n / 64;
    var b := a / 64;
    assert n == a * 64 + n % 64;
    assert a == b * 64 + a % 64;
    assert b == (b / 64) * 64 + b % 64;
  }

  /** Decoding an encoded string gives the string back, so a value passed through
      `encodeURIComponent` reaches the reader of the query string unchanged. */
  lemma {:induction false} DecodeEncode(s: string)
    ensures Decode(Encode(s)) == Some(s)
  {
    if s != [] {
      var head, rest := EncodeChar(s[0]), Encode(s[1..]);
      var t := head + rest;
      assert Encode(s) == t;
      DecodeOneEncoded(s[0], rest);
      assert t[|head|..] == rest;
      DecodeEncode(s[1..]);
      assert [s[0]] + s[1..] == s;
    }
  }

  /** Text holding no '%' decodes to itself. */
  lemma {:induction false} DecodePlain(s: string)
    requires forall i :: 0 <= i < |s| ==> s[i] != '%'
    ensures Decode(s) == Some(s)
  {
    if s != [] {
      assert DecodeOne(s) == Some((s[0], 1));
      DecodePlain(s[1..]);
      assert [s[0]] + s[1..] == s;
    }
  }

  /** The encoded text holds none of the characters that delimit a query string. */
  lemma EncodedHasNoDelimiters(s: string)
    ensures forall i :: 0 <= i < |Encode(s)| ==>
      Encode(s)[i] !in {'&', '=', '?', '#', '+', ' ', '/'}
  {
  }
}
