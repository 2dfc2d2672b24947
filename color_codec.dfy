/**
 * The colour codec of the ui package: `fmt.Sprintf("#%02X%02X%02X", r, g, b)`
 * and its inverse hexToRGB, which reads the same format back with
 * `fmt.Sscanf` and ignores the scan error.
 */
module ColorCodec {
  import opened Wrappers
  import opened GoNumerics
  import opened GoFormat

  datatype Rgb = Rgb(r: Uint8, g: Uint8, b: Uint8)

  predicate IsHexDigit(c: char) {
    IsDigitIn(c, 16)
  }

  predicate IsUpperHexDigit(c: char) {
    '0' <= c <= '9' || 'A' <= c <= 'F'
  }

  /** `#` and six hexadecimal digits of either case. */
  predicate IsHexColor(s: string) {
    |s| == 7 && s[0] == '#' && forall i :: 1 <= i < 7 ==> IsHexDigit(s[i])
  }

  /** `#` and six upper-case hexadecimal digits: what `#%02X%02X%02X` writes. */
  predicate IsUpperHexColor(s: string) {
    |s| == 7 && s[0] == '#' && forall i :: 1 <= i < 7 ==> IsUpperHexDigit(s[i])
  }

  /** An upper-case colour is a colour. */
  lemma UpperHexIsHex(s: string)
    requires IsUpperHexColor(s)
    ensures IsHexColor(s)
  {
    forall i | 1 <= i < 7
      ensures IsHexDigit(s[i])
    {
      assert IsUpperHexDigit(s[i]);
    }
  }

  /** `%02X` of a uint8: exactly two upper-case hexadecimal digits, the high nibble first. */
  function Hex2(n: Uint8): (s: string)
    ensures |s| == 2 && IsUpperHexDigit(s[0]) && IsUpperHexDigit(s[1])
    ensures DigitValue(s[0]) == n / 16 && DigitValue(s[1]) == n % 16
  {
    [DigitChar(n / 16, true), DigitChar(n % 16, true)]
  }

  /** Hex2 is what `%02X` prints: strconv's base-16 digits in upper case, padded with a zero to two. */
  lemma Hex2IsPaddedHex(n: Uint8)
    ensures Hex2(n) == ZeroPad2(FormatNat(n, 16, true))
  {
    TwoHexDigits(n, true);
  }

  /**
   * `fmt.Sprintf("#%02X%02X%02X", c.r, c.g, c.b)`: `#` and the two upper-case
   * digits of each channel, the high nibble first.
   */
  function FormatHex(c: Rgb): string {
    ['#', DigitChar(c.r / 16, true), DigitChar(c.r % 16, true),
          DigitChar(c.g / 16, true), DigitChar(c.g % 16, true),
          DigitChar(c.b / 16, true), DigitChar(c.b % 16, true)]
  }

  /** FormatHex writes an upper-case colour whose digit pairs are the channels. */
  lemma FormatHexDigits(c: Rgb)
    ensures var s := FormatHex(c);
      IsUpperHexColor(s)
      && DigitValue(s[1]) * 16 + DigitValue(s[2]) == c.r
      && DigitValue(s[3]) * 16 + DigitValue(s[4]) == c.g
      && DigitValue(s[5]) * 16 + DigitValue(s[6]) == c.b
  {
    var s := FormatHex(c);
    assert s[1] == DigitChar(c.r / 16, true) && s[2] == DigitChar(c.r % 16, true);
    assert s[3] == DigitChar(c.g / 16, true) && s[4] == DigitChar(c.g % 16, true);
    assert s[5] == DigitChar(c.b / 16, true) && s[6] == DigitChar(c.b % 16, true);
  }

  /** FormatHex is `#` followed by `%02X` of each channel. */
  lemma FormatHexIsThreePairs(c: Rgb)
    ensures FormatHex(c) == "#" + Hex2(c.r) + Hex2(c.g) + Hex2(c.b)
  {
  }

  /**
   * The white space fmt's scanner skips: its own table of the Unicode space
   * characters below U+10000.
   */
  predicate IsScanSpace(c: char) {
    var x := c as int;
    (0x09 <= x <= 0x0D) || x == 0x20 || x == 0x85 || x == 0xA0 || x == 0x1680
    || (0x2000 <= x <= 0x200A) || x == 0x2028 || x == 0x2029 || x == 0x202F
    || x == 0x205F || x == 0x3000
  }

  /**
   * Where the scanner stands after skipping white space from `i`, or None when
   * it meets a newline (`\n`, or `\r` before `\n`), which Sscanf reports as an
   * error.
   */
  function SkipSpace(s: string, i: nat): (r: Option<nat>)
    requires i <= |s|
    ensures r.Some? ==> i <= r.value <= |s| && (r.value < |s| ==> !IsScanSpace(s[r.value]))
    ensures r.Some? ==> forall k :: i <= k < r.value ==> IsScanSpace(s[k]) && s[k] != '\n'
    ensures i < |s| && !IsScanSpace(s[i]) ==> r == Some(i)
    ensures r.None? <==> exists k :: i <= k < |s| && s[k] == '\n' && forall j :: i <= j < k ==> IsScanSpace(s[j])
    decreases |s| - i
  {
    if i == |s| then Some(i)
    else if s[i] == '\n' || (s[i] == '\r' && i + 1 < |s| && s[i + 1] == '\n') then None
    else if IsScanSpace(s[i]) then SkipSpace(s, i + 1)
    else Some(i)
  }

  /** A value scanned by one conversion and the position where scanning goes on. */
  datatype Field = Field(value: Uint8, next: nat)

  /**
   * One `%02X` conversion into a uint8: white space is skipped, then one or two
   * hexadecimal digits of either case are read. None is the scan error of a
   * newline, of the end of the input or of a character that is not a digit.
   */
  function ScanHex2(s: string, i: nat): (r: Option<Field>)
    requires i <= |s|
    ensures r.Some? ==> i < r.value.next <= |s|
    ensures i + 2 <= |s| && IsHexDigit(s[i]) && IsHexDigit(s[i + 1]) ==>
              r == Some(Field(DigitValue(s[i]) * 16 + DigitValue(s[i + 1]), i + 2))
  {
    match SkipSpace(s, i)
    case None => None
    case Some(j) =>
      if j == |s| || !IsHexDigit(s[j]) then None
      else if j + 1 < |s| && IsHexDigit(s[j + 1]) then
        Some(Field(DigitValue(s[j]) * 16 + DigitValue(s[j + 1]), j + 2))
      else
        Some(Field(DigitValue(s[j]), j + 1))
  }

  /**
   * hexToRGB: `fmt.Sscanf(hex, "#%02X%02X%02X", &r, &g, &b)` with the error
   * dropped. The `#` must come first; each channel scanned before the first
   * failure keeps its value and every later one stays 0. Input after the third
   * channel is ignored.
   */
  function HexToRgb(hex: string): (c: Rgb) {
    if |hex| == 0 || hex[0] != '#' then Rgb(0, 0, 0)
    else
      match ScanHex2(hex, 1)
      case None => Rgb(0, 0, 0)
      case Some(r) =>
        match ScanHex2(hex, r.next)
        case None => Rgb(r.value, 0, 0)
        case Some(g) =>
          match ScanHex2(hex, g.next)
          case None => Rgb(r.value, g.value, 0)
          case Some(b) => Rgb(r.value, g.value, b.value)
  }

  /** The value of a pair of hexadecimal digits. */
  function PairValue(s: string, i: nat): Uint8
    requires i + 2 <= |s| && IsHexDigit(s[i]) && IsHexDigit(s[i + 1])
  {
    DigitValue(s[i]) * 16 + DigitValue(s[i + 1])
  }

  /** A well-formed colour of either case is read digit pair by digit pair. */
  lemma HexToRgbOfHexColor(s: string)
    requires IsHexColor(s)
    ensures HexToRgb(s) == Rgb(PairValue(s, 1), PairValue(s, 3), PairValue(s, 5))
  {
    assert IsHexDigit(s[1]) && IsHexDigit(s[2]) && IsHexDigit(s[3]);
    assert IsHexDigit(s[4]) && IsHexDigit(s[5]) && IsHexDigit(s[6]);
  }

  /** hexToRGB reads back exactly the channels `#%02X%02X%02X` wrote. */
  lemma ParseFormatHex(c: Rgb)
    ensures HexToRgb(FormatHex(c)) == c
  {
    FormatHexDigits(c);
    HexToRgbOfHexColor(FormatHex(c));
  }

  /** `%02X` of the value of two upper-case digits writes those digits. */
  lemma Hex2OfPair(s: string, i: nat)
    requires i + 2 <= |s| && IsUpperHexDigit(s[i]) && IsUpperHexDigit(s[i + 1])
    ensures Hex2(PairValue(s, i)) == s[i..i + 2]
  {
    DigitCharOfValue(s[i], true);
    DigitCharOfValue(s[i + 1], true);
  }

  /** Formatting what hexToRGB read from an upper-case colour gives the same string. */
  lemma FormatParseHex(s: string)
    requires IsUpperHexColor(s)
    ensures FormatHex(HexToRgb(s)) == s
  {
    HexToRgbOfHexColor(s);
    Hex2OfPair(s, 1);
    Hex2OfPair(s, 3);
    Hex2OfPair(s, 5);
    FormatHexIsThreePairs(HexToRgb(s));
    assert s == s[..1] + s[1..3] + s[3..5] + s[5..7];
  }

  /** Input that does not start with `#` reads as black: hexToRGB zero-fills instead of failing. */
  lemma NoHashIsBlack(s: string)
    requires |s| == 0 || s[0] != '#'
    ensures HexToRgb(s) == Rgb(0, 0, 0)
  {
  }

  /** Lower-case digits are accepted: `#ff8000` is orange. */
  lemma LowerCaseAccepted()
    ensures HexToRgb("#ff8000") == Rgb(255, 128, 0)
  {
    HexToRgbOfHexColor("#ff8000");
  }

  /** A short colour keeps the channels it has: `#FFF` reads as (255, 15, 0). */
  lemma ShortColorZeroFilled()
    ensures HexToRgb("#FFF") == Rgb(255, 15, 0)
  {
    var s := "#FFF";
    assert ScanHex2(s, 1) == Some(Field(255, 3));
    assert SkipSpace(s, 3) == Some(3);
    assert ScanHex2(s, 3) == Some(Field(15, 4));
    assert SkipSpace(s, 4) == Some(4);
    assert ScanHex2(s, 4) == None;
  }

  /** A bad digit stops the scan: `#12zz56` reads as (0x12, 0, 0). */
  lemma BadDigitStopsScan()
    ensures HexToRgb("#12zz56") == Rgb(0x12, 0, 0)
  {
    var s := "#12zz56";
    assert ScanHex2(s, 1) == Some(Field(0x12, 3));
    assert SkipSpace(s, 3) == Some(3);
    assert !IsHexDigit(s[3]);
    assert ScanHex2(s, 3) == None;
  }

  /** White space before each channel is skipped: `# 1 2 3` reads as (1, 2, 3). */
  lemma SpacesSkipped()
    ensures HexToRgb("# 1 2 3") == Rgb(1, 2, 3)
  {
    var s := "# 1 2 3";
    assert SkipSpace(s, 2) == Some(2);
    assert SkipSpace(s, 1) == Some(2);
    assert ScanHex2(s, 1) == Some(Field(1, 3));
    assert SkipSpace(s, 4) == Some(4);
    assert SkipSpace(s, 3) == Some(4);
    assert ScanHex2(s, 3) == Some(Field(2, 5));
    assert SkipSpace(s, 6) == Some(6);
    assert SkipSpace(s, 5) == Some(6);
    assert ScanHex2(s, 5) == Some(Field(3, 7));
  }
}
