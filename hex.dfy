/**
  The canvas colour as the bot compares it: f'{r:02x}{g:02x}{b:02x}', six
  lower-case hexadecimal digits, two per channel in R, G, B order.
 */
module Hex {
  import opened Wrappers
  import opened Canvas

  predicate IsLowerHexDigit(ch: char)
  {
    '0' <= ch <= '9' || 'a' <= ch <= 'f'
  }

  /** The digit `x` formatting writes for a value below 16. */
  function Digit(n: nat): (ch: char)
    requires n < 16
    ensures IsLowerHexDigit(ch)
  {
    if n < 10 then ('0' as int + n) as char else ('a' as int + (n - 10)) as char
  }

  /** The value of a lower-case hexadecimal digit. */
  function DigitValue(ch: char): (n: nat)
    requires IsLowerHexDigit(ch)
    ensures n < 16 && Digit(n) == ch
  {
    if ch <= '9' then ch as int - '0' as int else ch as int - 'a' as int + 10
  }

  lemma DigitRoundTrip(n: nat)
    requires n < 16
    ensures DigitValue(Digit(n)) == n
  {
  }

  /** `{v:02x}` for one channel. */
  function ByteHex(v: byte): (s: string)
    ensures |s| == 2 && IsLowerHexDigit(s[0]) && IsLowerHexDigit(s[1])
  {
    [Digit(v / 16), Digit(v % 16)]
  }

  /** The canvas colour string the diff compares against the pattern (pixels.py line 60). */
  function Format(c: Rgb): (s: string)
    ensures |s| == 6
    ensures forall i :: 0 <= i < |s| ==> IsLowerHexDigit(s[i])
  {
    ByteHex(c.r) + ByteHex(c.g) + ByteHex(c.b)
  }

  /**
    The colour strings of a row-major RGB buffer, one per complete
    three-byte pixel, in buffer order.
   */
  function PixelStrings(data: seq<byte>): (t: seq<string>)
    ensures |t| == |data| / 3
  {
    if |data| < 3 then [] else [Format(Rgb(data[0], data[1], data[2]))] + PixelStrings(data[3..])
  }

  /** Entry k of PixelStrings is the formatting of the bytes at 3k, 3k+1 and 3k+2. */
  lemma {:induction false} PixelStringsAt(data: seq<byte>, k: nat)
    requires 3 * k + 3 <= |data|
    ensures PixelStrings(data)[k] == Format(Rgb(data[3 * k], data[3 * k + 1], data[3 * k + 2]))
  {
    if k > 0 {
      var rest := data[3..];
      PixelStringsAt(rest, k - 1);
      assert PixelStrings(data)[k] == PixelStrings(rest)[k - 1];
      assert rest[3 * (k - 1)] == data[3 * k];
      assert rest[3 * (k - 1) + 1] == data[3 * k + 1];
      assert rest[3 * (k - 1) + 2] == data[3 * k + 2];
    }
  }

  /** Reads two lower-case hexadecimal digits back as one channel value. */
  function ParseByte(s: string): (r: Option<byte>)
    requires |s| == 2
  {
    if IsLowerHexDigit(s[0]) && IsLowerHexDigit(s[1])
    then Some(16 * DigitValue(s[0]) + DigitValue(s[1]))
    else None
  }

  /** Reads a six-digit lower-case colour string back as a triple; anything else is rejected. */
  function Parse(s: string): (r: Option<Rgb>)
  {
    if |s| != 6 then None
    else match (ParseByte(s[0..2]), ParseByte(s[2..4]), ParseByte(s[4..6]))
      case (Some(r), Some(g), Some(b)) => Some(Rgb(r, g, b))
      case _ => None
  }

  lemma ByteRoundTrip(v: byte)
    ensures ParseByte(ByteHex(v)) == Some(v)
  {
    DigitRoundTrip(v / 16);
    DigitRoundTrip(v % 16);
  }

  lemma ByteFormatOfParse(s: string, v: byte)
    requires |s| == 2 && ParseByte(s) == Some(v)
    ensures ByteHex(v) == s
  {
    var hi, lo := DigitValue(s[0]), DigitValue(s[1]);
    assert v / 16 == hi && v % 16 == lo;
  }

  /** Parsing the formatted colour gives back the original triple. */
  lemma {:induction false} FormatRoundTrip(c: Rgb)
    ensures Parse(Format(c)) == Some(c)
  {
    var s := Format(c);
    assert s[0..2] == ByteHex(c.r);
    assert s[2..4] == ByteHex(c.g);
    assert s[4..6] == ByteHex(c.b);
    ByteRoundTrip(c.r);
    ByteRoundTrip(c.g);
    ByteRoundTrip(c.b);
  }

  /** Every string the parser accepts is the formatting of the triple it yields. */
  lemma {:induction false} ParseRoundTrip(s: string, c: Rgb)
    requires Parse(s) == Some(c)
    ensures Format(c) == s
  {
    ByteFormatOfParse(s[0..2], c.r);
    ByteFormatOfParse(s[2..4], c.g);
    ByteFormatOfParse(s[4..6], c.b);
    assert s == s[0..2] + s[2..4] + s[4..6];
  }

  /** Distinct colours never format to the same string. */
  lemma FormatInjective(c1: Rgb, c2: Rgb)
    requires Format(c1) == Format(c2)
    ensures c1 == c2
  {
    FormatRoundTrip(c1);
    FormatRoundTrip(c2);
  }

  /**
    The diff's comparison is plain string equality: a pattern string equals the
    canvas colour's formatting exactly when it parses, as lower-case hex, to
    that colour.
   */
  lemma FormatEqualsIff(s: string, c: Rgb)
    ensures Format(c) == s <==> Parse(s) == Some(c)
  {
    FormatRoundTrip(c);
    if Parse(s) == Some(c) {
      ParseRoundTrip(s, c);
    }
  }

  /** A colour string holding an upper-case letter never equals any canvas colour. */
  lemma UppercaseNeverEqual(s: string, i: nat, c: Rgb)
    requires i < |s| && 'A' <= s[i] <= 'F'
    ensures Format(c) != s
  {
  }
}
