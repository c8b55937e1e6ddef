/**
 * Lower-case hexadecimal rendering of a byte array, as done by
 * `Md5Cache.byteArrayToHexString`, together with a decoder that shows
 * the rendering loses nothing.
 */
module HexEncoding {
  import opened Wrappers

  /** A Java `byte`: signed, two's complement, eight bits. */
  newtype int8 = x: int | -128 <= x < 128

  type Bytes = seq<int8>

  /** A value in 0..15, one hexadecimal digit's worth. */
  type Nibble = n: int | 0 <= n < 16

  /**
   * `(b >> 4) & 0xf` in Java: `b` is widened to `int` with its sign,
   * `>> 4` shifts arithmetically (floor division by 16, which is what
   * Dafny's `/` does for a positive divisor) and `& 0xf` keeps the four
   * low bits (the non-negative remainder modulo 16, Dafny's `%`).
   */
  function HighNibble(b: int8): (n: Nibble)
    ensures n == Unsigned(b) / 16
  {
    var x := b as int;
    assert x < 0 ==> x / 16 + 16 == (x + 256) / 16 && x + 256 == Unsigned(b);
    (x / 16) % 16
  }

  /** `b & 0xf` in Java. */
  function LowNibble(b: int8): (n: Nibble)
    ensures n == Unsigned(b) % 16
  {
    (b as int) % 16
  }

  /** `Integer.toHexString(n)` for `0 <= n < 16`: a single lower-case digit. */
  function HexDigit(n: Nibble): (c: char)
    ensures IsHexChar(c)
    ensures n < 10 <==> '0' <= c <= '9'
  {
    if n < 10 then ('0' as int + n) as char else ('a' as int + n - 10) as char
  }

  predicate IsHexChar(c: char) {
    '0' <= c <= '9' || 'a' <= c <= 'f'
  }

  predicate IsLowerHex(s: string) {
    forall i :: 0 <= i < |s| ==> IsHexChar(s[i])
  }

  /**
   * The string `byteArrayToHexString` builds: for each byte in order, its
   * high nibble then its low nibble, one hex character each.
   */
  function Hex(bytes: Bytes): (s: string)
    ensures |s| == 2 * |bytes|
    ensures IsLowerHex(s)
    decreases |bytes|
  {
    if bytes == [] then ""
    else
      var b := bytes[|bytes| - 1];
      Hex(bytes[..|bytes| - 1]) + [HexDigit(HighNibble(b)), HexDigit(LowNibble(b))]
  }

  /** Characters 2i and 2i+1 of the rendering are the two nibbles of byte i. */
  lemma {:induction false} HexAt(bytes: Bytes, i: nat)
    requires i < |bytes|
    ensures Hex(bytes)[2 * i] == HexDigit(HighNibble(bytes[i]))
    ensures Hex(bytes)[2 * i + 1] == HexDigit(LowNibble(bytes[i]))
    decreases |bytes|
  {
    var init := bytes[..|bytes| - 1];
    if i < |bytes| - 1 {
      HexAt(init, i);
      assert bytes[i] == init[i];
    }
  }

  /** The unsigned value 0..255 of a byte. */
  function Unsigned(b: int8): (u: nat)
    ensures u < 256
  {
    (b as int) % 256
  }

  /** The two nibbles are the two hex digits of the byte's unsigned value. */
  lemma NibblesOfUnsigned(b: int8)
    ensures HighNibble(b) * 16 + LowNibble(b) == Unsigned(b)
  {
  }

  /** The byte whose high and low nibbles are `hi` and `lo`. */
  function FromNibbles(hi: Nibble, lo: Nibble): int8 {
    var u := hi * 16 + lo;
    if u < 128 then u as int8 else (u - 256) as int8
  }

  lemma FromNibblesOfNibbles(b: int8)
    ensures FromNibbles(HighNibble(b), LowNibble(b)) == b
  {
  }

  /** The value of a lower-case hex digit, or None for any other character. */
  function DigitValue(c: char): (r: Option<Nibble>)
    ensures r.Some? <==> IsHexChar(c)
  {
    if '0' <= c <= '9' then Some(c as int - '0' as int)
    else if 'a' <= c <= 'f' then Some(c as int - 'a' as int + 10)
    else None
  }

  lemma DigitValueOfHexDigit(n: Nibble)
    ensures DigitValue(HexDigit(n)) == Some(n)
  {
  }

  /** Decodes a rendering, two characters per byte. */
  function Unhex(s: string): Option<Bytes>
    decreases |s|
  {
    if |s| == 0 then Some([])
    else if |s| == 1 then None
    else
      match (Unhex(s[..|s| - 2]), DigitValue(s[|s| - 2]), DigitValue(s[|s| - 1]))
      case (Some(init), Some(hi), Some(lo)) => Some(init + [FromNibbles(hi, lo)])
      case _ => None
  }

  /** Decoding the rendering gives back the original bytes. */
  lemma {:induction false} UnhexHex(bytes: Bytes)
    ensures Unhex(Hex(bytes)) == Some(bytes)
    decreases |bytes|
  {
    if bytes != [] {
      var init := bytes[..|bytes| - 1];
      var b := bytes[|bytes| - 1];
      var s := Hex(bytes);
      assert s[..|s| - 2] == Hex(init);
      UnhexHex(init);
      DigitValueOfHexDigit(HighNibble(b));
      DigitValueOfHexDigit(LowNibble(b));
      FromNibblesOfNibbles(b);
      assert init + [b] == bytes;
    }
  }

  /** Distinct byte sequences have distinct renderings. */
  lemma HexInjective(a: Bytes, b: Bytes)
    ensures Hex(a) == Hex(b) <==> a == b
  {
    UnhexHex(a);
    UnhexHex(b);
  }

  /** The loop of `byteArrayToHexString`, appending two digits per byte. */
  method ByteArrayToHexString(bytes: Bytes) returns (result: string)
    ensures result == Hex(bytes)
  {
    result := "";
    for i := 0 to |bytes|
      invariant result == Hex(bytes[..i])
    {
      var b := bytes[i];
      assert bytes[..i + 1][..i] == bytes[..i];
      result := result + [HexDigit(HighNibble(b))];
      result := result + [HexDigit(LowNibble(b))];
    }
    assert bytes[..|bytes|] == bytes;
  }
}
