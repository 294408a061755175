/** Percent encoding, and the query string of the consent URL. */
module UrlEncoding {
  import opened Basics

  newtype Byte = x: int | 0 <= x < 256

  type Bytes = seq<Byte>

  /** The unreserved characters of section 2.3 of RFC 3986. */
  predicate Unreserved(c: char) {
    || 'A' <= c <= 'Z' || 'a' <= c <= 'z' || '0' <= c <= '9'
    || c == '-' || c == '_' || c == '.' || c == '~'
  }

  /** They are 66, by code point: hyphen and full stop, digits, capitals, underscore, small letters, tilde. */
  lemma UnreservedAre(c: char)
    ensures Unreserved(c) <==>
              c as int in {45, 46, 48, 49, 50, 51, 52, 53, 54, 55, 56, 57, 65, 66, 67, 68, 69, 70, 71, 72, 73, 74,
                           75, 76, 77, 78, 79, 80, 81, 82, 83, 84, 85, 86, 87, 88, 89, 90, 95, 97, 98, 99, 100, 101,
                           102, 103, 104, 105, 106, 107, 108, 109, 110, 111, 112, 113, 114, 115, 116, 117,
                           118, 119, 120, 121, 122, 126}
  {
  }

  /** One upper-case hexadecimal digit. */
  function Hex(d: int): char
    requires 0 <= d < 16
  {
    if d < 10 then '0' + d as char else 'A' + (d - 10) as char
  }

  function EncodedByte(b: Byte): string {
    if Unreserved(b as char) then [b as char] else ['%', Hex(b as int / 16), Hex(b as int % 16)]
  }

  function PercentEncoded(bytes: Bytes): string {
    if bytes == [] then "" else PercentEncoded(bytes[..|bytes| - 1]) + EncodedByte(bytes[|bytes| - 1])
  }

  method PercentEncode(input: Bytes) returns (out: string)
    ensures out == PercentEncoded(input)
  {
    out := "";
    for i := 0 to |input|
      invariant out == PercentEncoded(input[..i])
    {
      assert input[..i + 1][..i] == input[..i];
      var byte := input[i];
      if Unreserved(byte as char) {
        out := out + [byte as char];
      } else {
        out := out + ['%', Hex(byte as int / 16), Hex(byte as int % 16)];
      }
    }
    assert input[..|input|] == input;
  }

  /** The bytes of a string, as RFC 3629 encodes them. */
  function Utf8(s: string): Bytes {
    if s == "" then [] else Utf8Char(s[0]) + Utf8(s[1..])
  }

  function Utf8Char(c: char): Bytes {
    var n := c as int;
    if n < 0x80 then [n as Byte]
    else if n < 0x800 then [(0xC0 + n / 0x40) as Byte, (0x80 + n % 0x40) as Byte]
    else if n < 0x1_0000 then
      [(0xE0 + n / 0x1000) as Byte, (0x80 + n / 0x40 % 0x40) as Byte, (0x80 + n % 0x40) as Byte]
    else
      [(0xF0 + n / 0x4_0000) as Byte, (0x80 + n / 0x1000 % 0x40) as Byte, (0x80 + n / 0x40 % 0x40) as Byte,
       (0x80 + n % 0x40) as Byte]
  }

  /** A byte that goes on with a character begun before it, and its six bits. */
  predicate Continues(b: Byte) {
    0x80 <= b < 0xC0
  }

  /** Section 3 of RFC 3629: the first byte tells how many there are, the others continue, their bits make up the
      character, and no shorter form would hold it. */
  lemma Utf8CharMeans(c: char)
    ensures var (b, n) := (Utf8Char(c), c as int);
            match |b|
            case 1 => b[0] < 0x80 && n == b[0] as int
            case 2 =>
              && 0xC0 <= b[0] as int && b[0] as int < 0xE0 && Continues(b[1]) && 0x80 <= n
              && n == (b[0] as int - 0xC0) * 0x40 + (b[1] as int - 0x80)
            case 3 =>
              && 0xE0 <= b[0] as int && b[0] as int < 0xF0 && Continues(b[1]) && Continues(b[2]) && 0x800 <= n
              && n == (b[0] as int - 0xE0) * 0x1000 + (b[1] as int - 0x80) * 0x40 + (b[2] as int - 0x80)
            case 4 =>
              && 0xF0 <= b[0] as int && b[0] as int < 0xF8 && Continues(b[1]) && Continues(b[2]) && Continues(b[3])
              && 0x1_0000 <= n
              && n == (b[0] as int - 0xF0) * 0x4_0000 + (b[1] as int - 0x80) * 0x1000 + (b[2] as int - 0x80) * 0x40
                      + (b[3] as int - 0x80)
            case _ => false
  {
    var n := c as int;
    assert n / 0x1000 == n / 0x40 / 0x40 && n / 0x4_0000 == n / 0x1000 / 0x40;
  }

  /** A string's bytes are its characters' in turn. */
  lemma {:induction false} Utf8Concat(a: string, b: string)
    ensures Utf8(a + b) == Utf8(a) + Utf8(b)
  {
    hide Utf8Char;
    if a == "" {
      assert a + b == b && [] + Utf8(b) == Utf8(b);
    } else {
      Utf8Concat(a[1..], b);
      assert (a + b)[1..] == a[1..] + b && (a + b)[0] == a[0];
      var (x, y, z) := (Utf8Char(a[0]), Utf8(a[1..]), Utf8(b));
      assert Utf8(a + b) == x + (y + z) && Utf8(a) == x + y;
      assert x + (y + z) == (x + y) + z;
    }
  }

  // ---- decoding, section 2.1 of RFC 3986 ----

  /** A hexadecimal digit of either case. */
  function Digit(c: char): Option<int> {
    if '0' <= c <= '9' then Some(c as int - '0' as int)
    else if 'A' <= c <= 'F' then Some(c as int - 'A' as int + 10)
    else if 'a' <= c <= 'f' then Some(c as int - 'a' as int + 10)
    else None
  }

  /** A triplet stands for its octet, any other ASCII character for its own. */
  function Decode(s: string): Option<Bytes> {
    if s == "" then Some([])
    else if s[0] == '%' then
      if |s| < 3 || Digit(s[1]).None? || Digit(s[2]).None? then None
      else
        var (d, rest) := (16 * Digit(s[1]).value + Digit(s[2]).value, Decode(s[3..]));
        if rest.None? then None else Some([d as Byte] + rest.value)
    else if s[0] as int >= 128 then None
    else
      var rest := Decode(s[1..]);
      if rest.None? then None else Some([s[0] as Byte] + rest.value)
  }

  lemma EncodedByteDecodes(b: Byte, s: string)
    ensures Decode(EncodedByte(b) + s) == if Decode(s).None? then None else Some([b] + Decode(s).value)
  {
    var whole := EncodedByte(b) + s;
    if Unreserved(b as char) {
      assert whole[1..] == s;
    } else {
      assert whole[3..] == s;
      HexDigit(b as int / 16);
      HexDigit(b as int % 16);
    }
  }

  lemma HexDigit(d: int)
    requires 0 <= d < 16
    ensures Digit(Hex(d)) == Some(d) && ('0' <= Hex(d) <= '9' || 'A' <= Hex(d) <= 'F')
  {
  }

  lemma {:induction false} EncodedDecodes(bytes: Bytes, s: string)
    ensures Decode(PercentEncoded(bytes) + s) == if Decode(s).None? then None else Some(bytes + Decode(s).value)
  {
    hide Decode, EncodedByte;
    if bytes == [] {
      assert PercentEncoded(bytes) + s == s;
      assert Decode(s).Some? ==> bytes + Decode(s).value == Decode(s).value;
    } else {
      var (init, last) := (bytes[..|bytes| - 1], bytes[|bytes| - 1]);
      EncodedByteDecodes(last, s);
      EncodedDecodes(init, EncodedByte(last) + s);
      assert PercentEncoded(bytes) + s == PercentEncoded(init) + (EncodedByte(last) + s);
      if Decode(s).Some? {
        assert bytes + Decode(s).value == init + ([last] + Decode(s).value);
      }
    }
  }

  /** Decoding undoes encoding, for every string of bytes. */
  lemma DecodeUndoesEncode(bytes: Bytes)
    ensures Decode(PercentEncoded(bytes)) == Some(bytes)
  {
    EncodedDecodes(bytes, "");
    assert PercentEncoded(bytes) + "" == PercentEncoded(bytes) && bytes + [] == bytes;
  }

  // ---- the output's form ----

  predicate UpperHex(c: char) {
    '0' <= c <= '9' || 'A' <= c <= 'F'
  }

  /** Unreserved characters, and upper-case triplets for octets that are not unreserved. */
  predicate Normal(s: string) {
    s == ""
    || (Unreserved(s[0]) && Normal(s[1..]))
    || (|s| >= 3 && s[0] == '%' && UpperHex(s[1]) && UpperHex(s[2])
        && !Unreserved((16 * Digit(s[1]).value + Digit(s[2]).value) as char) && Normal(s[3..]))
  }

  lemma NormalByte(b: Byte, s: string)
    ensures Normal(EncodedByte(b) + s) <==> Normal(s)
  {
    var whole := EncodedByte(b) + s;
    if Unreserved(b as char) {
      assert whole[1..] == s;
    } else {
      assert whole[3..] == s;
      HexDigit(b as int / 16);
      HexDigit(b as int % 16);
    }
  }

  lemma {:induction false} EncodedNormal(bytes: Bytes, s: string)
    requires Normal(s)
    ensures Normal(PercentEncoded(bytes) + s)
  {
    hide Normal, EncodedByte;
    if bytes == [] {
      assert PercentEncoded(bytes) + s == s;
    } else {
      var (init, last) := (bytes[..|bytes| - 1], bytes[|bytes| - 1]);
      NormalByte(last, s);
      EncodedNormal(init, EncodedByte(last) + s);
      assert PercentEncoded(bytes) + s == PercentEncoded(init) + (EncodedByte(last) + s);
    }
  }

  lemma {:induction false} PercentEncodedCons(b: Byte, bytes: Bytes)
    ensures PercentEncoded([b] + bytes) == EncodedByte(b) + PercentEncoded(bytes)
  {
    hide EncodedByte;
    if bytes == [] {
      assert ([b] + bytes)[..0] == [];
      assert PercentEncoded([b] + bytes) == PercentEncoded([]) + EncodedByte(b);
    } else {
      var n := |bytes| - 1;
      PercentEncodedCons(b, bytes[..n]);
      assert ([b] + bytes)[..n + 1] == [b] + bytes[..n];
    }
  }

  lemma DigitHex(c: char)
    requires UpperHex(c)
    ensures Digit(c).Some? && 0 <= Digit(c).value < 16 && Hex(Digit(c).value) == c
  {
  }

  lemma HexPair(h: char, l: char)
    requires UpperHex(h) && UpperHex(l) && !Unreserved((16 * Digit(h).value + Digit(l).value) as char)
    ensures EncodedByte((16 * Digit(h).value + Digit(l).value) as Byte) == ['%', h, l]
  {
    DigitHex(h);
    DigitHex(l);
    var (x, y) := (Digit(h).value, Digit(l).value);
    assert (16 * x + y) / 16 == x && (16 * x + y) % 16 == y;
    hide Hex, Digit, Unreserved;
  }

  lemma TripletEncodes(s: string)
    requires |s| >= 3 && s[0] == '%' && UpperHex(s[1]) && UpperHex(s[2])
    requires !Unreserved((16 * Digit(s[1]).value + Digit(s[2]).value) as char)
    ensures var d := 16 * Digit(s[1]).value + Digit(s[2]).value;
            && Decode(s) == (if Decode(s[3..]).None? then None else Some([d as Byte] + Decode(s[3..]).value))
            && s == EncodedByte(d as Byte) + s[3..]
  {
    hide EncodedByte, Unreserved, Hex, Digit;
    HexPair(s[1], s[2]);
    DigitHex(s[1]);
    DigitHex(s[2]);
    assert s == ['%', s[1], s[2]] + s[3..];
    hide UpperHex;
  }

  lemma CharEncodes(s: string)
    requires s != "" && Unreserved(s[0])
    ensures Decode(s) == if Decode(s[1..]).None? then None else Some([s[0] as Byte] + Decode(s[1..]).value)
    ensures s == EncodedByte(s[0] as Byte) + s[1..]
  {
    assert s == [s[0]] + s[1..];
  }

  /** Encoding undoes decoding on strings of normal form. */
  lemma {:induction false} EncodeUndoesDecode(s: string)
    requires Normal(s)
    ensures Decode(s).Some? && PercentEncoded(Decode(s).value) == s
  {
    if s == "" {
    } else if Unreserved(s[0]) {
      EncodeUndoesDecode(s[1..]);
      CharEncodes(s);
      hide Decode, EncodedByte, PercentEncoded, Unreserved;
      PercentEncodedCons(s[0] as Byte, Decode(s[1..]).value);
    } else {
      EncodeUndoesDecode(s[3..]);
      TripletEncodes(s);
      var d := 16 * Digit(s[1]).value + Digit(s[2]).value;
      hide Decode, EncodedByte, PercentEncoded, Unreserved;
      PercentEncodedCons(d as Byte, Decode(s[3..]).value);
    }
  }

  lemma EncodedIsNormal(bytes: Bytes)
    ensures Normal(PercentEncoded(bytes))
  {
    EncodedNormal(bytes, "");
    assert PercentEncoded(bytes) + "" == PercentEncoded(bytes);
  }

  /** The outputs of `percent_encode` are exactly the strings of normal form. */
  lemma EncodedExactly(s: string)
    ensures Normal(s) <==> exists bytes :: PercentEncoded(bytes) == s
  {
    if Normal(s) {
      EncodeUndoesDecode(s);
    }
    if bytes :| PercentEncoded(bytes) == s {
      EncodedIsNormal(bytes);
    }
  }

  lemma {:induction false} NormalChars(s: string)
    requires Normal(s)
    ensures forall c :: c in s ==> Unreserved(c) || c == '%'
  {
    if s == "" {
    } else if Unreserved(s[0]) {
      NormalChars(s[1..]);
    } else {
      NormalChars(s[3..]);
      assert s == [s[0], s[1], s[2]] + s[3..];
    }
  }

  // ---- the query string ----

  datatype Param = Param(key: Bytes, value: Bytes)

  function Pair(p: Param): string {
    PercentEncoded(p.key) + "=" + PercentEncoded(p.value)
  }

  function UrlEncode(params: seq<Param>): string {
    if params == [] then ""
    else if |params| == 1 then Pair(params[0])
    else Pair(params[0]) + "&" + UrlEncode(params[1..])
  }

  /** Up to the first `c`, and what follows it if there is one. */
  function Cut(s: string, c: char): (string, Option<string>) {
    if s == "" then ("", None)
    else if s[0] == c then ("", Some(s[1..]))
    else
      var (before, after) := Cut(s[1..], c);
      ([s[0]] + before, after)
  }

  lemma {:induction false} CutLength(s: string, c: char)
    ensures Cut(s, c).1.Some? ==> |Cut(s, c).1.value| < |s|
  {
    if s != "" && s[0] != c {
      CutLength(s[1..], c);
    }
  }

  function ParsePair(s: string): Option<Param> {
    var (k, v) := Cut(s, '=');
    if v.None? || Decode(k).None? || Decode(v.value).None? then None
        else Some(Param(Decode(k).value, Decode(v.value).value))
  }

  /** Split on `&`, each part on its first `=`, and decode both sides. */
  function ParseQuery(s: string): Option<seq<Param>>
    decreases |s|
  {
    CutLength(s, '&');
    var (part, after) := Cut(s, '&');
    var p := ParsePair(part);
    if p.None? then None
    else if after.None? then Some([p.value])
    else
      var rest := ParseQuery(after.value);
      if rest.None? then None else Some([p.value] + rest.value)
  }

  lemma {:induction false} CutAt(a: string, c: char, b: string)
    requires forall x :: x in a ==> x != c
    ensures Cut(a + [c] + b, c) == (a, Some(b)) && Cut(a, c) == (a, None)
  {
    var s := a + [c] + b;
    if a == "" {
      assert s == [c] + b && s[1..] == b;
    } else {
      assert forall x :: x in a[1..] ==> x in a;
      CutAt(a[1..], c, b);
      assert s[0] == a[0];
      assert s[1..] == a[1..] + [c] + b;
      assert a == [a[0]] + a[1..];
    }
  }

  lemma PairParses(p: Param)
    ensures ParsePair(Pair(p)) == Some(p) && forall c :: c in Pair(p) ==> c != '&'
  {
    EncodedIsNormal(p.key);
    EncodedIsNormal(p.value);
    hide PercentEncoded, Normal, Decode, Cut;
    NormalChars(PercentEncoded(p.key));
    NormalChars(PercentEncoded(p.value));
    CutAt(PercentEncoded(p.key), '=', PercentEncoded(p.value));
    DecodeUndoesEncode(p.key);
    DecodeUndoesEncode(p.value);
  }

  /** The query string gives back the exact list of parameters, in order; the one list it cannot tell
      is the empty one. */
  lemma {:induction false} ParseUndoesUrlEncode(params: seq<Param>)
    ensures ParseQuery(UrlEncode(params)) == if params == [] then None else Some(params)
  {
    hide PercentEncoded, Normal, Decode, Pair;
    if params != [] {
      hide Cut, ParsePair;
      PairParses(params[0]);
      CutAt(Pair(params[0]), '&', UrlEncode(params[1..]));
      if |params| > 1 {
        ParseUndoesUrlEncode(params[1..]);
        assert UrlEncode(params) == Pair(params[0]) + ['&'] + UrlEncode(params[1..]);
        assert params == [params[0]] + params[1..];
      } else {
        assert params == [params[0]];
      }
    } else {
      assert Cut("", '=') == ("", None);
    }
  }
}
