/**
 * Text encodings used by the encrypted-secret envelope: Base16 (section 8 of
 * RFC 4648) and Base64 (section 4 of RFC 4648), with the decoders behaving as
 * Node's `Buffer.from(text, "hex")` and `Buffer.from(text, "base64")` do, and
 * the JavaScript `String.prototype.split` on a one-character separator.
 */
module Codec {

  type Byte = x: int | 0 <= x < 256
  type Bytes = seq<Byte>
  type Nibble = x: int | 0 <= x < 16
  type Sextet = x: int | 0 <= x < 64

  // ---------------------------------------------------------------------
  // Base16
  // ---------------------------------------------------------------------

  /** The lower-case digit Node writes for a nibble. */
  function HexDigit(v: Nibble): (c: char)
    ensures '0' <= c <= '9' || 'a' <= c <= 'f'
  {
    if v < 10 then ('0' as int + v) as char else ('a' as int + (v - 10)) as char
  }

  predicate IsHexDigit(c: char)
  {
    '0' <= c <= '9' || 'a' <= c <= 'f' || 'A' <= c <= 'F'
  }

  function HexValue(c: char): Nibble
    requires IsHexDigit(c)
  {
    if '0' <= c <= '9' then c as int - '0' as int
    else if 'a' <= c <= 'f' then c as int - 'a' as int + 10
    else c as int - 'A' as int + 10
  }

  /** `buf.toString("hex")`: two lower-case digits per byte, high nibble first. */
  function HexEncode(b: Bytes): (s: string)
    ensures |s| == 2 * |b|
    ensures forall i :: 0 <= i < |s| ==> '0' <= s[i] <= '9' || 'a' <= s[i] <= 'f'
  {
    if b == [] then [] else [HexDigit(b[0] / 16), HexDigit(b[0] % 16)] + HexEncode(b[1..])
  }

  /**
   * `Buffer.from(s, "hex")`: decodes digit pairs (either case) from the start
   * and stops, without failing, at the first pair that is not two hex digits;
   * a lone trailing digit is dropped.
   */
  function HexDecode(s: string): (b: Bytes)
    ensures |b| <= |s| / 2
  {
    if |s| >= 2 && IsHexDigit(s[0]) && IsHexDigit(s[1]) then
      [HexValue(s[0]) * 16 + HexValue(s[1])] + HexDecode(s[2..])
    else
      []
  }

  lemma HexDigitValue(v: Nibble)
    ensures IsHexDigit(HexDigit(v)) && HexValue(HexDigit(v)) == v
  {
  }

  /** Hex-decoding an encoding gives back exactly the encoded bytes. */
  lemma {:induction false} HexRoundTrip(b: Bytes)
    ensures HexDecode(HexEncode(b)) == b
  {
    if b != [] {
      var s := HexEncode(b);
      HexDigitValue(b[0] / 16);
      HexDigitValue(b[0] % 16);
      assert s[2..] == HexEncode(b[1..]);
      HexRoundTrip(b[1..]);
      assert HexDecode(s) == [b[0]] + b[1..];
    }
  }

  /** Decoding stops at the first non-digit pair, so text after the encoding cannot change it
      when that text starts with something other than a hex digit. */
  lemma {:induction false} HexDecodeStopsAtNonDigit(b: Bytes, rest: string)
    requires rest != [] && !IsHexDigit(rest[0])
    ensures HexDecode(HexEncode(b) + rest) == b
  {
    if b == [] {
      assert HexDecode(rest) == [];
    } else {
      var s := HexEncode(b) + rest;
      HexDigitValue(b[0] / 16);
      HexDigitValue(b[0] % 16);
      assert s[2..] == HexEncode(b[1..]) + rest;
      HexDecodeStopsAtNonDigit(b[1..], rest);
      assert HexDecode(s) == [b[0]] + b[1..];
    }
  }

  // ---------------------------------------------------------------------
  // Base64
  // ---------------------------------------------------------------------

  /** The character of the standard alphabet (Table 1 of RFC 4648) for a sextet. */
  function Base64Char(v: Sextet): (c: char)
    ensures c != '=' && c != ':'
  {
    if v < 26 then ('A' as int + v) as char
    else if v < 52 then ('a' as int + (v - 26)) as char
    else if v < 62 then ('0' as int + (v - 52)) as char
    else if v == 62 then '+'
    else '/'
  }

  /** Characters Node's decoder accepts: the standard alphabet and the URL-safe `-` and `_`. */
  predicate IsBase64Char(c: char)
  {
    'A' <= c <= 'Z' || 'a' <= c <= 'z' || '0' <= c <= '9' || c == '+' || c == '/' || c == '-' || c == '_'
  }

  function Base64Value(c: char): Sextet
    requires IsBase64Char(c)
  {
    if 'A' <= c <= 'Z' then c as int - 'A' as int
    else if 'a' <= c <= 'z' then c as int - 'a' as int + 26
    else if '0' <= c <= '9' then c as int - '0' as int + 52
    else if c == '+' || c == '-' then 62
    else 63
  }

  lemma Base64CharValue(v: Sextet)
    ensures IsBase64Char(Base64Char(v)) && Base64Value(Base64Char(v)) == v
  {
  }

  /** Splits bytes into sextets, three bytes to four sextets, a short tail zero-filled on the right. */
  function ToSextets(b: Bytes): (x: seq<Sextet>)
    ensures |x| == (4 * |b| + 2) / 3
  {
    if |b| >= 3 then
      [b[0] / 4, (b[0] % 4) * 16 + b[1] / 16, (b[1] % 16) * 4 + b[2] / 64, b[2] % 64] + ToSextets(b[3..])
    else if |b| == 2 then
      [b[0] / 4, (b[0] % 4) * 16 + b[1] / 16, (b[1] % 16) * 4]
    else if |b| == 1 then
      [b[0] / 4, (b[0] % 4) * 16]
    else
      []
  }

  /** Reassembles bytes from sextets, as Node's decoder does: four sextets give three bytes,
      a tail of three gives two, a tail of two gives one, a lone sextet gives nothing. */
  function FromSextets(x: seq<Sextet>): (b: Bytes)
    ensures |b| == 3 * |x| / 4
  {
    if |x| >= 4 then
      var b0: Byte := x[0] as int * 4 + x[1] / 16;
      var b1: Byte := (x[1] as int % 16) * 16 + x[2] / 4;
      var b2: Byte := (x[2] as int % 4) * 64 + x[3];
      [b0, b1, b2] + FromSextets(x[4..])
    else if |x| == 3 then
      var b0: Byte := x[0] as int * 4 + x[1] / 16;
      var b1: Byte := (x[1] as int % 16) * 16 + x[2] / 4;
      [b0, b1]
    else if |x| == 2 then
      var b0: Byte := x[0] as int * 4 + x[1] / 16;
      [b0]
    else
      []
  }

  function Base64Chars(x: seq<Sextet>): (s: string)
    ensures |s| == |x|
    ensures forall i :: 0 <= i < |s| ==> s[i] == Base64Char(x[i])
  {
    if x == [] then [] else [Base64Char(x[0])] + Base64Chars(x[1..])
  }

  function Base64Padding(n: nat): string
  {
    if n % 3 == 1 then "==" else if n % 3 == 2 then "=" else ""
  }

  /** `buf.toString("base64")`: the standard alphabet with `=` padding. */
  function Base64Encode(b: Bytes): (s: string)
    ensures |s| % 4 == 0
    ensures forall i :: 0 <= i < |s| ==> s[i] != ':'
  {
    EncodedLength(|b|);
    Base64Chars(ToSextets(b)) + Base64Padding(|b|)
  }

  lemma EncodedLength(n: nat)
    ensures ((4 * n + 2) / 3 + |Base64Padding(n)|) % 4 == 0
  {
    var q, r := n / 3, n % 3;
    assert n == 3 * q + r;
    assert 4 * n + 2 == 3 * (4 * q + r) + (r + 2);
    if r == 0 {
      assert (4 * n + 2) / 3 == 4 * q;
    } else if r == 1 {
      assert (4 * n + 2) / 3 == 4 * q + 2;
    } else {
      assert (4 * n + 2) / 3 == 4 * q + 3;
    }
  }

  /** The sextets Node's decoder reads: characters outside the alphabet are skipped and
      reading stops at the first `=`. */
  function ReadSextets(s: string): (x: seq<Sextet>)
    ensures |x| <= |s|
  {
    if s == [] || s[0] == '=' then []
    else if IsBase64Char(s[0]) then [Base64Value(s[0])] + ReadSextets(s[1..])
    else ReadSextets(s[1..])
  }

  /** `Buffer.from(s, "base64")`: never fails, and yields at most three bytes per four characters. */
  function Base64Decode(s: string): (b: Bytes)
    ensures |b| <= 3 * |s| / 4
  {
    FromSextets(ReadSextets(s))
  }

  lemma GroupRoundTrip(b0: Byte, b1: Byte, b2: Byte)
    ensures (b0 / 4) * 4 + ((b0 % 4) * 16 + b1 / 16) / 16 == b0
    ensures (((b0 % 4) * 16 + b1 / 16) % 16) * 16 + ((b1 % 16) * 4 + b2 / 64) / 4 == b1
    ensures (((b1 % 16) * 4 + b2 / 64) % 4) * 64 + b2 % 64 == b2
  {
  }

  lemma {:induction false} SextetsRoundTrip(b: Bytes)
    ensures FromSextets(ToSextets(b)) == b
  {
    if |b| >= 3 {
      GroupRoundTrip(b[0], b[1], b[2]);
      var x := ToSextets(b);
      assert x[4..] == ToSextets(b[3..]);
      SextetsRoundTrip(b[3..]);
      assert FromSextets(x) == b[..3] + b[3..];
    } else if |b| == 2 {
      GroupRoundTrip(b[0], b[1], 0);
    } else if |b| == 1 {
      GroupRoundTrip(b[0], 0, 0);
    }
  }

  lemma {:induction false} ReadSextetsOfChars(x: seq<Sextet>, tail: string)
    requires tail == [] || tail[0] == '='
    ensures ReadSextets(Base64Chars(x) + tail) == x
  {
    if x == [] {
      assert Base64Chars(x) + tail == tail;
    } else {
      var s := Base64Chars(x) + tail;
      Base64CharValue(x[0]);
      assert s[1..] == Base64Chars(x[1..]) + tail;
      ReadSextetsOfChars(x[1..], tail);
    }
  }

  /** Base64-decoding an encoding gives back exactly the encoded bytes (section 4 of RFC 4648). */
  lemma Base64RoundTrip(b: Bytes)
    ensures Base64Decode(Base64Encode(b)) == b
  {
    ReadSextetsOfChars(ToSextets(b), Base64Padding(|b|));
    SextetsRoundTrip(b);
  }

  // ---------------------------------------------------------------------
  // String.prototype.split with a one-character separator
  // ---------------------------------------------------------------------

  /** `s.split(sep)`: the maximal runs between separators, empty runs included. */
  function Split(s: string, sep: char): (parts: seq<string>)
    ensures |parts| >= 1
    ensures |parts| >= 2 <==> sep in s
  {
    if s == [] then [[]]
    else if s[0] == sep then [[]] + Split(s[1..], sep)
    else
      var rest := Split(s[1..], sep);
      [[s[0]] + rest[0]] + rest[1..]
  }

  /** `parts.join(sep)`. */
  function Join(parts: seq<string>, sep: char): string
    requires |parts| >= 1
  {
    if |parts| == 1 then parts[0] else parts[0] + [sep] + Join(parts[1..], sep)
  }

  /** Joining the pieces of a split restores the text. */
  lemma {:induction false} JoinSplit(s: string, sep: char)
    ensures Join(Split(s, sep), sep) == s
  {
    if s != [] {
      JoinSplit(s[1..], sep);
      var rest := Split(s[1..], sep);
      if s[0] != sep {
        if |rest| == 1 {
          assert Split(s, sep) == [[s[0]] + rest[0]];
        } else {
          assert Split(s, sep)[1..] == rest[1..];
          assert [s[0]] + rest[0] + [sep] + Join(rest[1..], sep) == [s[0]] + Join(rest, sep);
        }
      } else {
        assert Split(s, sep)[1..] == rest;
      }
    }
  }

  /** Text without the separator splits into itself alone. */
  lemma {:induction false} SplitWithoutSeparator(s: string, sep: char)
    requires sep !in s
    ensures Split(s, sep) == [s]
  {
    if s != [] {
      SplitWithoutSeparator(s[1..], sep);
      assert [s[0]] + s[1..] == s;
    }
  }

  /** A separator-free prefix followed by the separator becomes the first piece. */
  lemma {:induction false} SplitAfterPrefix(a: string, sep: char, b: string)
    requires sep !in a
    ensures Split(a + [sep] + b, sep) == [a] + Split(b, sep)
  {
    if a == [] {
      assert a + [sep] + b == [sep] + b;
      assert ([sep] + b)[1..] == b;
    } else {
      var s := a + [sep] + b;
      assert s[0] == a[0] && s[1..] == a[1..] + [sep] + b;
      SplitAfterPrefix(a[1..], sep, b);
      assert [a[0]] + a[1..] == a;
    }
  }

  /** Splitting the pieces back apart: every separator-free list of pieces survives join then split. */
  lemma {:induction false} SplitJoin(parts: seq<string>, sep: char)
    requires |parts| >= 1
    requires forall i :: 0 <= i < |parts| ==> sep !in parts[i]
    ensures Split(Join(parts, sep), sep) == parts
  {
    if |parts| == 1 {
      SplitWithoutSeparator(parts[0], sep);
    } else {
      SplitJoin(parts[1..], sep);
      SplitAfterPrefix(parts[0], sep, Join(parts[1..], sep));
      assert parts[0] + [sep] + Join(parts[1..], sep) == Join(parts, sep);
      assert [parts[0]] + parts[1..] == parts;
    }
  }
}
