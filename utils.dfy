/**
 * `Utils.parseColor`: a colour string of the configuration, with or
 * without a leading '#', is six hex digits RRGGBB (opaque) or eight hex
 * digits AARRGGBB. Channels are kept as the integers 0..255 the digits
 * spell, before Compose divides them by 255.
 */
module Utils {
  import opened Wrappers

  /** A colour's channels, each 0..255. */
  datatype Rgba = Rgba(red: int, green: int, blue: int, alpha: int)

  /** The exceptions `parseColor` can throw. */
  datatype ColorError =
    | InvalidFormat(message: string)  // IllegalArgumentException: neither 6 nor 8 digits
    | NumberFormat(input: string)     // NumberFormatException from `toInt(16)` on a pair

  /** A hexadecimal digit, in either case. */
  predicate IsHexDigit(c: char) {
    ('0' <= c <= '9') || ('a' <= c <= 'f') || ('A' <= c <= 'F')
  }

  /** The value of a hexadecimal digit. */
  function HexDigitValue(c: char): (d: nat)
    requires IsHexDigit(c)
    ensures d < 16
  {
    if '0' <= c <= '9' then (c as int) - ('0' as int)
    else if 'a' <= c <= 'f' then (c as int) - ('a' as int) + 10
    else (c as int) - ('A' as int) + 10
  }

  /** The upper-case hexadecimal digit of a value below 16. */
  function HexDigit(d: nat): (c: char)
    requires d < 16
    ensures IsHexDigit(c) && HexDigitValue(c) == d
  {
    if d < 10 then (('0' as int) + d) as char else (('A' as int) + d - 10) as char
  }

  /** The upper-case spelling of a hexadecimal letter; any other character is kept. */
  function Upper(c: char): (u: char)
    ensures IsHexDigit(c) ==> IsHexDigit(u) && HexDigitValue(u) == HexDigitValue(c)
    ensures IsHexDigit(u) ==> IsHexDigit(c)
  {
    if 'a' <= c <= 'f' then ((c as int) - 32) as char else c
  }

  /** Every hexadecimal letter of `s` in upper case. */
  function UpperAll(s: string): (u: string)
    ensures |u| == |s|
    ensures forall i :: 0 <= i < |s| ==> u[i] == Upper(s[i])
  {
    seq(|s|, i requires 0 <= i < |s| => Upper(s[i]))
  }

  /** A channel written as two hexadecimal digits, most significant first. */
  function HexPair(v: nat): (s: string)
    requires v < 256
    ensures |s| == 2
  {
    [HexDigit(v / 16), HexDigit(v % 16)]
  }

  /**
   * `pair.toInt(16)` on a two-character substring: the number the two hex
   * digits spell, or a number-format error naming the input.
   */
  function ParseHexPair(pair: string): (r: Result<int, ColorError>)
    requires |pair| == 2
    ensures r.Ok? <==> IsHexDigit(pair[0]) && IsHexDigit(pair[1])
    ensures r.Ok? ==> 0 <= r.value < 256
    ensures r.Err? ==> r.error == NumberFormat(pair)
  {
    if IsHexDigit(pair[0]) && IsHexDigit(pair[1]) then Ok(16 * HexDigitValue(pair[0]) + HexDigitValue(pair[1]))
    else Err(NumberFormat(pair))
  }

  /** `removePrefix("#")`: at most one leading '#' is dropped. */
  function RemoveHash(s: string): (r: string)
    ensures |s| > 0 && s[0] == '#' ==> r == s[1..]
    ensures (|s| == 0 || s[0] != '#') ==> r == s
  {
    if |s| > 0 && s[0] == '#' then s[1..] else s
  }

  /** The message of the exception for a string of the wrong length. */
  function InvalidFormatMessage(colorString: string): string {
    "Invalid color format: " + colorString
  }

  /**
   * Three pairs decoded in order; the first that fails decides the error.
   * Used for the channels taken from the pairs at `a`, `b` and `c`.
   */
  function ParseThree(color: string, a: nat, b: nat, c: nat): (r: Result<(int, int, int), ColorError>)
    requires a + 2 <= |color| && b + 2 <= |color| && c + 2 <= |color|
  {
    match ParseHexPair(color[a..a + 2])
    case Err(e) => Err(e)
    case Ok(x) =>
      match ParseHexPair(color[b..b + 2])
      case Err(e) => Err(e)
      case Ok(y) =>
        match ParseHexPair(color[c..c + 2])
        case Err(e) => Err(e)
        case Ok(z) => Ok((x, y, z))
  }

  /**
   * `parseColor`: after dropping one '#', six digits are RRGGBB with full
   * alpha and eight digits are AARRGGBB (the alpha pair is decoded last);
   * any other length is an invalid-format error carrying the string as given.
   */
  function ParseColor(colorString: string): (r: Result<Rgba, ColorError>)
    ensures r.Ok? ==> (0 <= r.value.red < 256 && 0 <= r.value.green < 256 &&
                       0 <= r.value.blue < 256 && 0 <= r.value.alpha < 256)
    ensures r.Ok? && |RemoveHash(colorString)| == 6 ==> r.value.alpha == 255
    ensures (r == Err(InvalidFormat(InvalidFormatMessage(colorString)))) <==>
            (|RemoveHash(colorString)| != 6 && |RemoveHash(colorString)| != 8)
    ensures r.Err? && r.error.NumberFormat? ==> |r.error.input| == 2 && !AllHex(r.error.input)
  {
    var color := RemoveHash(colorString);
    if |color| == 6 then
      match ParseThree(color, 0, 2, 4)
      case Err(e) => Err(e)
      case Ok((red, green, blue)) => Ok(Rgba(red, green, blue, 255))
    else if |color| == 8 then
      match ParseThree(color, 2, 4, 6)
      case Err(e) => Err(e)
      case Ok((red, green, blue)) =>
        match ParseHexPair(color[0..2])
        case Err(e) => Err(e)
        case Ok(alpha) => Ok(Rgba(red, green, blue, alpha))
    else
      Err(InvalidFormat(InvalidFormatMessage(colorString)))
  }

  /** Every character of `s` is a hexadecimal digit. */
  predicate AllHex(s: string) {
    forall i :: 0 <= i < |s| ==> IsHexDigit(s[i])
  }

  /** `ParseThree` succeeds exactly when all six digits of its three pairs are hex. */
  lemma ParseThreeOk(color: string, a: nat, b: nat, c: nat)
    requires a + 2 <= |color| && b + 2 <= |color| && c + 2 <= |color|
    ensures ParseThree(color, a, b, c).Ok? <==>
      AllHex(color[a..a + 2]) && AllHex(color[b..b + 2]) && AllHex(color[c..c + 2])
  {
    assert AllHex(color[a..a + 2]) <==> IsHexDigit(color[a..a + 2][0]) && IsHexDigit(color[a..a + 2][1]);
    assert AllHex(color[b..b + 2]) <==> IsHexDigit(color[b..b + 2][0]) && IsHexDigit(color[b..b + 2][1]);
    assert AllHex(color[c..c + 2]) <==> IsHexDigit(color[c..c + 2][0]) && IsHexDigit(color[c..c + 2][1]);
  }

  /** A digit inside an all-hex pair is a hex digit. */
  lemma DigitOfPair(color: string, p: nat, i: nat)
    requires p <= i < p + 2 <= |color| && AllHex(color[p..p + 2])
    ensures IsHexDigit(color[i])
  {
    assert color[i] == color[p..p + 2][i - p];
  }

  /** A pair of an all-hex string is all hex. */
  lemma PairOfDigits(color: string, p: nat)
    requires p + 2 <= |color| && AllHex(color)
    ensures AllHex(color[p..p + 2])
  {
    assert color[p..p + 2][0] == color[p] && color[p..p + 2][1] == color[p + 1];
  }

  /** The pairs at 0, 2, 4 (and 6) cover every digit of a six- (eight-)digit string. */
  lemma PairsCover(color: string)
    requires |color| == 6 || |color| == 8
    ensures AllHex(color) <==>
      && AllHex(color[0..2]) && AllHex(color[2..4]) && AllHex(color[4..6])
      && (|color| == 8 ==> AllHex(color[6..8]))
  {
    if AllHex(color[0..2]) && AllHex(color[2..4]) && AllHex(color[4..6]) && (|color| == 8 ==> AllHex(color[6..8])) {
      forall i | 0 <= i < |color| ensures IsHexDigit(color[i]) {
        if i < 2 { DigitOfPair(color, 0, i); }
        else if i < 4 { DigitOfPair(color, 2, i); }
        else if i < 6 { DigitOfPair(color, 4, i); }
        else { DigitOfPair(color, 6, i); }
      }
    }
    if AllHex(color) {
      PairOfDigits(color, 0);
      PairOfDigits(color, 2);
      PairOfDigits(color, 4);
      if |color| == 8 { PairOfDigits(color, 6); }
    }
  }

  /**
   * A colour string parses exactly when, without its '#', it has six or
   * eight characters and all of them are hexadecimal digits.
   */
  lemma ParseColorSucceeds(colorString: string)
    ensures var color := RemoveHash(colorString);
      ParseColor(colorString).Ok? <==> (|color| == 6 || |color| == 8) && AllHex(color)
  {
    var color := RemoveHash(colorString);
    if |color| == 6 {
      ParseThreeOk(color, 0, 2, 4);
      PairsCover(color);
    } else if |color| == 8 {
      ParseThreeOk(color, 2, 4, 6);
      PairsCover(color);
      assert AllHex(color[0..2]) <==> IsHexDigit(color[0..2][0]) && IsHexDigit(color[0..2][1]);
    }
  }

  /**
   * A leading '#' changes nothing but the message of an invalid-format
   * error, which repeats the string as given.
   */
  lemma HashIsOptional(s: string)
    requires |s| == 0 || s[0] != '#'
    ensures ParseColor("#" + s) ==
      if ParseColor(s).Err? && ParseColor(s).error.InvalidFormat?
      then Err(InvalidFormat(InvalidFormatMessage("#" + s)))
      else ParseColor(s)
  {
    assert ("#" + s)[1..] == s;
  }

  /** Eight digits with alpha FF parse like the six digits after them. */
  lemma OpaqueAlpha(s: string)
    requires |s| == 6 && s[0] != '#'
    ensures ParseColor("FF" + s) == ParseColor(s)
  {
    var t := "FF" + s;
    assert t[2..4] == s[0..2] && t[4..6] == s[2..4] && t[6..8] == s[4..6] && t[0..2] == "FF";
  }

  /** The eight-digit form #AARRGGBB of a colour. */
  function FormatColor(c: Rgba): (s: string)
    requires 0 <= c.red < 256 && 0 <= c.green < 256 && 0 <= c.blue < 256 && 0 <= c.alpha < 256
    ensures |s| == 9
  {
    "#" + HexPair(c.alpha) + HexPair(c.red) + HexPair(c.green) + HexPair(c.blue)
  }

  /** The six-digit form #RRGGBB of a colour, which drops its alpha. */
  function FormatRgb(c: Rgba): (s: string)
    requires 0 <= c.red < 256 && 0 <= c.green < 256 && 0 <= c.blue < 256
    ensures |s| == 7
  {
    "#" + HexPair(c.red) + HexPair(c.green) + HexPair(c.blue)
  }

  /** A written pair reads back as the channel. */
  lemma HexPairRoundTrip(v: nat)
    requires v < 256
    ensures ParseHexPair(HexPair(v)) == Ok(v)
  {
  }

  /** Parsing the eight-digit form gives the colour back. */
  lemma FormatColorRoundTrip(c: Rgba)
    requires 0 <= c.red < 256 && 0 <= c.green < 256 && 0 <= c.blue < 256 && 0 <= c.alpha < 256
    ensures ParseColor(FormatColor(c)) == Ok(c)
  {
    var digits := FormatColor(c)[1..];
    assert digits == HexPair(c.alpha) + HexPair(c.red) + HexPair(c.green) + HexPair(c.blue);
    assert digits[0..2] == HexPair(c.alpha) && digits[2..4] == HexPair(c.red);
    assert digits[4..6] == HexPair(c.green) && digits[6..8] == HexPair(c.blue);
    HexPairRoundTrip(c.alpha);
    HexPairRoundTrip(c.red);
    HexPairRoundTrip(c.green);
    HexPairRoundTrip(c.blue);
  }

  /** Writing a hexadecimal digit's value gives its upper-case spelling. */
  lemma HexDigitOfValue(c: char)
    requires IsHexDigit(c)
    ensures HexDigit(HexDigitValue(c)) == Upper(c)
  {
  }

  /**
   * The other direction of `HexPairRoundTrip`: a pair that parses, in
   * either case, is written back as its upper-case spelling.
   */
  lemma ParseHexPairCanonical(pair: string)
    requires |pair| == 2
    ensures ParseHexPair(pair).Ok? ==> HexPair(ParseHexPair(pair).value) == UpperAll(pair)
  {
    if ParseHexPair(pair).Ok? {
      var hi, lo := HexDigitValue(pair[0]), HexDigitValue(pair[1]);
      assert (16 * hi + lo) / 16 == hi && (16 * hi + lo) % 16 == lo;
      HexDigitOfValue(pair[0]);
      HexDigitOfValue(pair[1]);
    }
  }

  /** The four pairs of `color`, upper-cased, put back together. */
  lemma UpperPairs(color: string)
    requires |color| == 6 || |color| == 8
    ensures |color| == 6 ==>
      UpperAll(color) == UpperAll(color[0..2]) + UpperAll(color[2..4]) + UpperAll(color[4..6])
    ensures |color| == 8 ==>
      UpperAll(color) == UpperAll(color[0..2]) + UpperAll(color[2..4]) + UpperAll(color[4..6]) + UpperAll(color[6..8])
  {
  }

  /**
   * Format-after-parse: every spelling `parseColor` accepts, with or without
   * '#' and in either case, is the written form of the colour it yields.
   * Eight digits come back as #AARRGGBB, six as #RRGGBB.
   */
  lemma ParseColorCanonical(colorString: string)
    ensures var color := RemoveHash(colorString);
      ParseColor(colorString).Ok? && |color| == 8 ==>
        FormatColor(ParseColor(colorString).value) == "#" + UpperAll(color)
    ensures var color := RemoveHash(colorString);
      ParseColor(colorString).Ok? && |color| == 6 ==>
        FormatRgb(ParseColor(colorString).value) == "#" + UpperAll(color)
  {
    var color := RemoveHash(colorString);
    if ParseColor(colorString).Ok? && (|color| == 6 || |color| == 8) {
      ParseHexPairCanonical(color[0..2]);
      ParseHexPairCanonical(color[2..4]);
      ParseHexPairCanonical(color[4..6]);
      if |color| == 8 {
        ParseHexPairCanonical(color[6..8]);
      }
      UpperPairs(color);
    }
  }

  /** Parsing the six-digit form gives the colour back, made opaque. */
  lemma FormatRgbRoundTrip(c: Rgba)
    requires 0 <= c.red < 256 && 0 <= c.green < 256 && 0 <= c.blue < 256
    ensures ParseColor(FormatRgb(c)) == Ok(c.(alpha := 255))
  {
    var digits := FormatRgb(c)[1..];
    assert digits == HexPair(c.red) + HexPair(c.green) + HexPair(c.blue);
    assert digits[0..2] == HexPair(c.red) && digits[2..4] == HexPair(c.green) && digits[4..6] == HexPair(c.blue);
    HexPairRoundTrip(c.red);
    HexPairRoundTrip(c.green);
    HexPairRoundTrip(c.blue);
  }
}
