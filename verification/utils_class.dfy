/**
 * The codecs of CodeMonkey's UtilsClass: byte to two-digit hexadecimal and
 * back, RRGGBB(AA) colour strings, and integer parsing with a default.
 */
module Utils {
  import opened Wrappers
  import opened Text

  const Int32Min: int := -0x8000_0000
  const Int32Max: int := 0x7FFF_FFFF
  const TwoTo32: int := 0x1_0000_0000

  predicate IsInt32(v: int) {
    Int32Min <= v <= Int32Max
  }

  predicate IsByte(v: int) {
    0 <= v <= 255
  }

  // ----- Hexadecimal -----

  predicate IsUpperHexDigit(c: char) {
    '0' <= c <= '9' || 'A' <= c <= 'F'
  }

  /** A digit Convert.ToInt32(s, 16) accepts: either case. */
  predicate IsHexDigit(c: char) {
    '0' <= c <= '9' || 'A' <= c <= 'F' || 'a' <= c <= 'f'
  }

  predicate AllHex(s: string) {
    forall i :: 0 <= i < |s| ==> IsHexDigit(s[i])
  }

  predicate AllUpperHex(s: string) {
    forall i :: 0 <= i < |s| ==> IsUpperHexDigit(s[i])
  }

  function HexDigitValue(c: char): (d: int)
    requires IsHexDigit(c)
    ensures 0 <= d < 16
  {
    if '0' <= c <= '9' then c as int - '0' as int
    else if 'A' <= c <= 'F' then c as int - 'A' as int + 10
    else c as int - 'a' as int + 10
  }

  function HexDigitChar(d: int): (c: char)
    requires 0 <= d < 16
    ensures IsUpperHexDigit(c) && IsHexDigit(c) && HexDigitValue(c) == d
  {
    if d < 10 then ('0' as int + d) as char else ('A' as int + d - 10) as char
  }

  /**
   * The "X" format with a precision: upper-case hexadecimal digits of n,
   * padded with leading zeros to at least minDigits digits.
   */
  function HexDigits(n: nat, minDigits: nat): (s: string)
    ensures 1 <= |s| && minDigits <= |s|
    decreases n + minDigits
  {
    if n < 16 && minDigits <= 1 then [HexDigitChar(n)]
    else HexDigits(n / 16, if minDigits == 0 then 0 else minDigits - 1) + [HexDigitChar(n % 16)]
  }

  /** The number a string of hexadecimal digits denotes. */
  function HexValue(s: string): nat
    requires AllHex(s)
    decreases |s|
  {
    if s == [] then 0 else HexValue(s[..|s| - 1]) * 16 + HexDigitValue(s[|s| - 1])
  }

  /**
   * Dec_to_Hex: value.ToString("X2"), upper-case hexadecimal padded to at
   * least two digits. A negative int prints its 32-bit two's complement.
   */
  function DecToHex(value: int): (s: string)
    requires IsInt32(value)
    ensures 2 <= |s|
  {
    HexDigits(if value < 0 then value + TwoTo32 else value, 2)
  }

  /**
   * Hex_to_Dec: Convert.ToInt32(hex, 16). One optional '+' sign, then an
   * optional 0x or 0X prefix, then hexadecimal digits of either case worth
   * less than 2^32, read as a 32-bit two's complement value. Anything else
   * (a '-' sign, white space, no digits, a stray character, too large a
   * value) throws in C# and is None here.
   */
  function HexToDec(hex: string): (r: Option<int>)
    ensures r.Some? ==> IsInt32(r.value)
  {
    if |hex| > 0 && hex[0] == '+' then HexUnsigned(hex[1..]) else HexUnsigned(hex)
  }

  /** Convert.ToInt32(hex, 16) after the sign: the optional prefix and the digits. */
  function HexUnsigned(body: string): (r: Option<int>)
    ensures r.Some? ==> IsInt32(r.value)
  {
    var digits := if |body| >= 2 && body[0] == '0' && (body[1] == 'x' || body[1] == 'X') then body[2..] else body;
    if |digits| == 0 || !AllHex(digits) then None
    else
      var u := HexValue(digits);
      if u >= TwoTo32 then None
      else if u > Int32Max then Some(u - TwoTo32)
      else Some(u)
  }

  // ----- Colour strings -----

  /** A Unity Color with channels as reals. */
  datatype Color = Color(r: real, g: real, b: real, a: real)

  /**
   * GetStringFromColor: the red, green and blue pairs concatenated,
   * "RRGGBB". The channels are the bytes Dec01_to_Hex rounds the float
   * channels to.
   */
  function GetStringFromColor(red: int, green: int, blue: int): (s: string)
    requires IsByte(red) && IsByte(green) && IsByte(blue)
    ensures |s| == 6
  {
    ByteHexIsTwoDigits(red);
    ByteHexIsTwoDigits(green);
    ByteHexIsTwoDigits(blue);
    DecToHex(red) + DecToHex(green) + DecToHex(blue)
  }

  /** GetStringFromColorWithAlpha: "RRGGBB" with the alpha pair appended, "RRGGBBAA". */
  function GetStringFromColorWithAlpha(red: int, green: int, blue: int, alpha: int): (s: string)
    requires IsByte(red) && IsByte(green) && IsByte(blue) && IsByte(alpha)
    ensures |s| == 8
  {
    ByteHexIsTwoDigits(alpha);
    GetStringFromColor(red, green, blue) + DecToHex(alpha)
  }

  /**
   * Hex_to_Dec01: the value Hex_to_Dec reads, divided by 255. It fails
   * exactly when Hex_to_Dec does, and a string of at most two characters
   * (a pair) lands in [0, 1].
   */
  function HexToDec01(hex: string): (r: Option<real>)
    ensures r.Some? <==> HexToDec(hex).Some?
    ensures r.Some? ==> r.value * 255.0 == HexToDec(hex).value as real
    ensures r.Some? && |hex| <= 2 ==> 0.0 <= r.value <= 1.0
  {
    ShortHexIsByte(hex);
    match HexToDec(hex)
    case Some(v) => Some(v as real / 255.0)
    case None => None
  }

  /** At most two characters read by Hex_to_Dec give a byte. */
  lemma ShortHexIsByte(hex: string)
    ensures |hex| <= 2 && HexToDec(hex).Some? ==> IsByte(HexToDec(hex).value)
  {
    if |hex| <= 2 && HexToDec(hex).Some? {
      var body := if |hex| > 0 && hex[0] == '+' then hex[1..] else hex;
      var digits := if |body| >= 2 && body[0] == '0' && (body[1] == 'x' || body[1] == 'X') then body[2..] else body;
      assert HexToDec(hex) == HexUnsigned(body);
      ShortHexValue(digits);
    }
  }

  /** One or two hexadecimal digits are worth at most 255. */
  lemma ShortHexValue(s: string)
    requires AllHex(s) && |s| <= 2
    ensures HexValue(s) <= 255
  {
    if |s| == 2 {
      assert s[..1][..0] == [];
      assert HexValue(s[..1]) == HexDigitValue(s[0]);
    }
  }

  /**
   * GetColorFromString: characters 0-1, 2-3 and 4-5 are red, green and
   * blue; characters 6-7 are alpha when the string has at least 8
   * characters, otherwise alpha is 1. A string too short for a substring,
   * or a pair Hex_to_Dec rejects, throws in C# and is None here.
   */
  function GetColorFromString(color: string): (r: Option<Color>)
    ensures |color| < 6 ==> r.None?
    ensures r.Some? && |color| < 8 ==> r.value.a == 1.0
  {
    if |color| < 6 then None
    else
      var red, green, blue := HexToDec01(color[0..2]), HexToDec01(color[2..4]), HexToDec01(color[4..6]);
      var alpha := if |color| >= 8 then HexToDec01(color[6..8]) else Some(1.0);
      if red.Some? && green.Some? && blue.Some? && alpha.Some? then
        Some(Color(red.value, green.value, blue.value, alpha.value))
      else None
  }

  // ----- Integer parsing -----

  /** The white space int.TryParse skips at either end: U+0009 to U+000D and U+0020. */
  predicate IsNumberWhite(c: char) {
    c == ' ' || '\t' <= c <= '\r'
  }

  function TrimStart(s: string): (t: string)
    ensures |t| <= |s|
    decreases |s|
  {
    if |s| > 0 && IsNumberWhite(s[0]) then TrimStart(s[1..]) else s
  }

  function TrimEnd(s: string): (t: string)
    ensures |t| <= |s|
    decreases |s|
  {
    if |s| > 0 && IsNumberWhite(s[|s| - 1]) then TrimEnd(s[..|s| - 1]) else s
  }

  /** A leading sign, if any, and the text after it. */
  function SplitSign(t: string): (r: (bool, string))
    ensures |r.1| <= |t|
  {
    if |t| > 0 && t[0] == '-' then (true, t[1..])
    else if |t| > 0 && t[0] == '+' then (false, t[1..])
    else (false, t)
  }

  /** One or more decimal digits whose signed value fits in 32 bits. */
  function SignedDigitsValue(negative: bool, digits: string): (r: Option<int>)
    ensures r.Some? ==> IsInt32(r.value)
  {
    if |digits| == 0 || !AllDigits(digits) then None
    else
      var v := if negative then -(DigitsValue(digits) as int) else DigitsValue(digits);
      if IsInt32(v) then Some(v) else None
  }

  /**
   * int.TryParse with the integer number style and invariant-culture signs:
   * optional surrounding white space, an optional '+' or '-', one or more
   * decimal digits, and a value within the 32-bit range.
   */
  function TryParseInt(txt: string): (r: Option<int>)
    ensures r.Some? ==> IsInt32(r.value)
  {
    var (negative, digits) := SplitSign(TrimEnd(TrimStart(txt)));
    SignedDigitsValue(negative, digits)
  }

  /** Parse_Int(txt, default): the parsed value, or the default when parsing fails. */
  function ParseInt(txt: string, default: int): (r: int)
    ensures TryParseInt(txt).None? ==> r == default
    ensures TryParseInt(txt).Some? ==> r == TryParseInt(txt).value && IsInt32(r)
  {
    match TryParseInt(txt)
    case Some(v) => v
    case None => default
  }

  /** Parse_Int(txt): the one-argument overload, whose default is -1. */
  function ParseIntOrMinusOne(txt: string): (r: int)
    ensures TryParseInt(txt).None? ==> r == -1
    ensures r == ParseInt(txt, -1)
  {
    ParseInt(txt, -1)
  }

  // ----- Properties -----

  /** A byte prints as exactly two upper-case hexadecimal digits. */
  lemma ByteHexIsTwoDigits(v: int)
    requires IsByte(v)
    ensures |DecToHex(v)| == 2
  {
    assert HexDigits(v, 2) == HexDigits(v / 16, 1) + [HexDigitChar(v % 16)];
  }

  /** HexDigits writes upper-case hexadecimal digits only. */
  lemma {:induction false} HexDigitsAreUpperHex(n: nat, minDigits: nat)
    ensures AllUpperHex(HexDigits(n, minDigits)) && AllHex(HexDigits(n, minDigits))
    decreases n + minDigits
  {
    if !(n < 16 && minDigits <= 1) {
      HexDigitsAreUpperHex(n / 16, if minDigits == 0 then 0 else minDigits - 1);
    }
  }

  /** Reading back the hexadecimal digits of n gives n, whatever the padding. */
  lemma {:induction false} HexDigitsValue(n: nat, minDigits: nat)
    ensures AllHex(HexDigits(n, minDigits)) && HexValue(HexDigits(n, minDigits)) == n
    decreases n + minDigits
  {
    HexDigitsAreUpperHex(n, minDigits);
    if !(n < 16 && minDigits <= 1) {
      var m := if minDigits == 0 then 0 else minDigits - 1;
      HexDigitsValue(n / 16, m);
      var s := HexDigits(n, minDigits);
      assert s[..|s| - 1] == HexDigits(n / 16, m);
    }
  }

  /** Hex_to_Dec(Dec_to_Hex(v)) == v for every 32-bit value, bytes included. */
  lemma HexRoundTrip(v: int)
    requires IsInt32(v)
    ensures HexToDec(DecToHex(v)) == Some(v)
  {
    var u := if v < 0 then v + TwoTo32 else v;
    HexDigitsValue(u, 2);
    var s := DecToHex(v);
    assert !(s[1] == 'x' || s[1] == 'X') by {
      HexDigitsAreUpperHex(u, 2);
      assert IsUpperHexDigit(s[1]);
    }
  }

  /** One leading '+' is skipped: a signed text reads as the text without the sign. */
  lemma PlusSignIsSkipped(hex: string)
    requires |hex| == 0 || hex[0] != '+'
    ensures HexToDec("+" + hex) == HexToDec(hex)
  {
    assert ("+" + hex)[1..] == hex;
  }

  /** A second '+' is not skipped, and a '-' sign is always rejected. */
  lemma SignsRejected(hex: string)
    ensures HexToDec("++" + hex).None?
    ensures HexToDec("-" + hex).None?
    ensures HexToDec("+-" + hex).None?
  {
    assert ("++" + hex)[1..] == "+" + hex;
    assert ("+-" + hex)[1..] == "-" + hex;
    assert ("+" + hex)[0] == '+' && ("-" + hex)[0] == '-';
    assert !IsHexDigit('+') && !IsHexDigit('-');
    assert !AllHex("+" + hex) && !AllHex("-" + hex);
  }

  /** Round trip of a byte in particular. */
  lemma ByteRoundTrip(v: int)
    requires IsByte(v)
    ensures |DecToHex(v)| == 2 && HexToDec(DecToHex(v)) == Some(v)
  {
    ByteHexIsTwoDigits(v);
    HexRoundTrip(v);
  }

  /** A pair written by Dec_to_Hex reads back through Hex_to_Dec01 as the byte over 255. */
  lemma PairRoundTrip(v: int)
    requires IsByte(v)
    ensures |DecToHex(v)| == 2 && HexToDec01(DecToHex(v)) == Some(v as real / 255.0)
  {
    ByteRoundTrip(v);
  }

  /** A colour string is the red, green and blue pairs, with the alpha pair last in the alpha variant. */
  lemma ColorStringLayout(red: int, green: int, blue: int, alpha: int)
    requires IsByte(red) && IsByte(green) && IsByte(blue) && IsByte(alpha)
    ensures GetStringFromColor(red, green, blue) == DecToHex(red) + DecToHex(green) + DecToHex(blue)
    ensures GetStringFromColorWithAlpha(red, green, blue, alpha)
         == DecToHex(red) + DecToHex(green) + DecToHex(blue) + DecToHex(alpha)
  {
  }

  /** Appending a pair to a six-character colour string sets alpha from that pair and keeps the rest. */
  lemma ReadAppendedAlpha(p: string, pair: string, c: Color, alpha: real)
    requires |p| == 6 && |pair| == 2
    requires GetColorFromString(p) == Some(c)
    requires HexToDec01(pair) == Some(alpha)
    ensures GetColorFromString(p + pair) == Some(c.(a := alpha))
  {
    var s := p + pair;
    assert s[0..2] == p[0..2] && s[2..4] == p[2..4] && s[4..6] == p[4..6] && s[6..8] == pair;
  }

  /** Reading a colour string back recovers each channel byte scaled to [0, 1]. */
  lemma ColorWithAlphaRoundTrip(red: int, green: int, blue: int, alpha: int)
    requires IsByte(red) && IsByte(green) && IsByte(blue) && IsByte(alpha)
    ensures GetColorFromString(GetStringFromColorWithAlpha(red, green, blue, alpha))
         == Some(Color(red as real / 255.0, green as real / 255.0, blue as real / 255.0, alpha as real / 255.0))
  {
    ColorStringLayout(red, green, blue, alpha);
    ReadColorBytes(GetStringFromColorWithAlpha(red, green, blue, alpha), red, green, blue, alpha);
  }

  /** A string made of the four byte pairs reads back as the four channels scaled to [0, 1]. */
  lemma ReadColorBytes(s: string, red: int, green: int, blue: int, alpha: int)
    requires IsByte(red) && IsByte(green) && IsByte(blue) && IsByte(alpha)
    requires s == DecToHex(red) + DecToHex(green) + DecToHex(blue) + DecToHex(alpha)
    ensures GetColorFromString(s)
         == Some(Color(red as real / 255.0, green as real / 255.0, blue as real / 255.0, alpha as real / 255.0))
  {
    PairRoundTrip(red);
    PairRoundTrip(green);
    PairRoundTrip(blue);
    PairRoundTrip(alpha);
    ReadFourPairs(s, DecToHex(red), DecToHex(green), DecToHex(blue), DecToHex(alpha),
      Color(red as real / 255.0, green as real / 255.0, blue as real / 255.0, alpha as real / 255.0));
  }

  /** GetColorFromString of four concatenated pairs with known values. */
  lemma ReadFourPairs(s: string, rs: string, gs: string, bs: string, als: string, c: Color)
    requires s == rs + gs + bs + als
    requires |rs| == 2 && |gs| == 2 && |bs| == 2 && |als| == 2
    requires HexToDec01(rs) == Some(c.r) && HexToDec01(gs) == Some(c.g) && HexToDec01(bs) == Some(c.b)
    requires HexToDec01(als) == Some(c.a)
    ensures GetColorFromString(s) == Some(c)
  {
    ReadThreePairs(rs, gs, bs, c.r, c.g, c.b);
    ReadAppendedAlpha(rs + gs + bs, als, c.(a := 1.0), c.a);
  }

  /** GetColorFromString of three concatenated pairs with known values. */
  lemma ReadThreePairs(rs: string, gs: string, bs: string, red: real, green: real, blue: real)
    requires |rs| == 2 && |gs| == 2 && |bs| == 2
    requires HexToDec01(rs) == Some(red) && HexToDec01(gs) == Some(green) && HexToDec01(bs) == Some(blue)
    ensures GetColorFromString(rs + gs + bs) == Some(Color(red, green, blue, 1.0))
  {
    var s := rs + gs + bs;
    assert s[0..2] == rs && s[2..4] == gs && s[4..6] == bs;
  }

  /** Without the alpha pair the colour reads back opaque. */
  lemma ColorRoundTrip(red: int, green: int, blue: int)
    requires IsByte(red) && IsByte(green) && IsByte(blue)
    ensures GetColorFromString(GetStringFromColor(red, green, blue))
         == Some(Color(red as real / 255.0, green as real / 255.0, blue as real / 255.0, 1.0))
  {
    PairRoundTrip(red);
    PairRoundTrip(green);
    PairRoundTrip(blue);
    ReadThreePairs(DecToHex(red), DecToHex(green), DecToHex(blue),
      red as real / 255.0, green as real / 255.0, blue as real / 255.0);
  }

  /** Decimal text has no white space at either end, so trimming keeps it. */
  lemma DecimalIsTrimmed(n: int)
    ensures TrimEnd(TrimStart(DecimalString(n))) == DecimalString(n)
  {
    var s := DecimalString(n);
    assert TrimStart(s) == s by { assert !IsNumberWhite(s[0]); }
    assert IsDigit(s[|s| - 1]) by {
      if n < 0 { assert s[|s| - 1] == s[1..][|s| - 2]; }
    }
  }

  /** The sign split of decimal text: a minus sign exactly for negative values, then the digits. */
  lemma DecimalSign(n: int)
    ensures n < 0 ==> SplitSign(DecimalString(n)) == (true, NatString(-n))
    ensures n >= 0 ==> SplitSign(DecimalString(n)) == (false, NatString(n))
  {
    var s := DecimalString(n);
    if n < 0 {
      assert s[1..] == NatString(-n);
    } else {
      assert IsDigit(s[0]);
    }
  }

  /** The digits of n read back as n, with the sign applied. */
  lemma DigitsReadBack(negative: bool, n: nat)
    requires IsInt32(if negative then -(n as int) else n)
    ensures SignedDigitsValue(negative, NatString(n)) == Some(if negative then -(n as int) else n)
  {
    NatStringValue(n);
  }

  /** Parsing the decimal text of a 32-bit integer gives it back, whatever the default. */
  lemma ParseDecimalRoundTrip(n: int, default: int)
    requires IsInt32(n)
    ensures TryParseInt(DecimalString(n)) == Some(n)
    ensures ParseInt(DecimalString(n), default) == n
  {
    var s := DecimalString(n);
    DecimalIsTrimmed(n);
    DecimalSign(n);
    var (negative, digits) := SplitSign(s);
    assert TryParseInt(s) == SignedDigitsValue(negative, digits);
    if n < 0 {
      DigitsReadBack(true, -n);
    } else {
      DigitsReadBack(false, n);
    }
  }
}
