/**
 * Integer formatting as Go's strconv and fmt write it (`strconv.FormatInt`,
 * `strconv.Itoa`, the `%d`, `%02d` and `%02X` verbs), and the parsing that
 * inverts it.
 */
module GoFormat {
  import opened GoNumerics

  predicate IsBase(base: int) {
    2 <= base <= 36
  }

  /** The value of a digit or letter as strconv reads it in any base, or -1. */
  function DigitValue(c: char): int {
    if '0' <= c <= '9' then c as int - '0' as int
    else if 'a' <= c <= 'z' then c as int - 'a' as int + 10
    else if 'A' <= c <= 'Z' then c as int - 'A' as int + 10
    else -1
  }

  predicate IsDigitIn(c: char, base: int) {
    0 <= DigitValue(c) < base
  }

  /**
   * The character for digit `d`: `0`-`9`, then letters, lower case as
   * strconv writes them or upper case as fmt's `%X` does.
   */
  function DigitChar(d: nat, upper: bool): (c: char)
    requires d < 36
    ensures DigitValue(c) == d
    ensures d < 10 || (upper <==> 'A' <= c <= 'Z')
  {
    if d < 10 then ('0' as int + d) as char
    else if upper then ('A' as int + d - 10) as char
    else ('a' as int + d - 10) as char
  }

  /** A digit character that is written in the requested case is written back unchanged. */
  lemma DigitCharOfValue(c: char, upper: bool)
    requires 0 <= DigitValue(c) < 36
    requires '0' <= c <= '9' || (upper && 'A' <= c <= 'Z') || (!upper && 'a' <= c <= 'z')
    ensures DigitChar(DigitValue(c), upper) == c
  {
  }

  /** The digits of `n` in `base`, most significant first, without leading zeros. */
  function FormatNat(n: nat, base: int, upper: bool): (s: string)
    requires IsBase(base)
    ensures 1 <= |s|
    ensures forall i :: 0 <= i < |s| ==> IsDigitIn(s[i], base)
    ensures (|s| == 1) == (n < base)
    ensures s[0] == '0' ==> n == 0
    decreases n
  {
    DivMod(n, base);
    if n < base then [DigitChar(n, upper)]
    else FormatNat(n / base, base, upper) + [DigitChar(n % base, upper)]
  }

  /** `strconv.FormatInt(n, base)` (and fmt's `%d`): a minus sign, then the digits of the magnitude. */
  function FormatInt(n: int, base: int, upper: bool): (s: string)
    requires IsBase(base)
    ensures 1 <= |s|
    ensures (n < 0) == (s[0] == '-')
  {
    if n < 0 then "-" + FormatNat(-n, base, upper) else FormatNat(n, base, upper)
  }

  /** `strconv.Itoa`, the decimal form of an integer. */
  function Itoa(n: int): (s: string)
    ensures ParseInt(s, 10) == n
    ensures (|s| == 1) == (0 <= n < 10)
  {
    ParseFormatInt(n, 10, false);
    FormatInt(n, 10, false)
  }

  /** The value of a string of digits in `base`, most significant first. */
  function ParseDigits(s: string, base: int): int
    decreases |s|
  {
    if s == [] then 0 else ParseDigits(s[..|s| - 1], base) * base + DigitValue(s[|s| - 1])
  }

  /** The value of an optionally signed string of digits in `base`. */
  function ParseInt(s: string, base: int): int {
    if |s| > 0 && s[0] == '-' then -ParseDigits(s[1..], base) else ParseDigits(s, base)
  }

  /** Reading back the digits FormatNat writes gives the number. */
  lemma {:induction false} ParseFormatNat(n: nat, base: int, upper: bool)
    requires IsBase(base)
    ensures ParseDigits(FormatNat(n, base, upper), base) == n
    decreases n
  {
    DivMod(n, base);
    if n >= base {
      var s := FormatNat(n, base, upper);
      assert s[..|s| - 1] == FormatNat(n / base, base, upper);
      ParseFormatNat(n / base, base, upper);
    }
  }

  /** Reading back the string FormatInt writes gives the number, negative ones included. */
  lemma ParseFormatInt(n: int, base: int, upper: bool)
    requires IsBase(base)
    ensures ParseInt(FormatInt(n, base, upper), base) == n
  {
    var m := if n < 0 then -n else n;
    var d := FormatNat(m, base, upper);
    ParseFormatNat(m, base, upper);
    assert IsDigitIn(d[0], base);
    if n < 0 {
      assert ("-" + d)[1..] == d;
    }
  }

  /** A leading zero digit does not change the value a string of digits denotes, in any base. */
  lemma {:induction false} ParseDigitsLeadingZero(s: string)
    ensures forall base :: ParseDigits("0" + s, base) == ParseDigits(s, base)
    decreases |s|
  {
    if s != [] {
      var z := "0" + s;
      assert z[..|z| - 1] == "0" + s[..|s| - 1];
      ParseDigitsLeadingZero(s[..|s| - 1]);
    } else {
      assert ("0" + s)[..0] == [];
    }
  }

  /**
   * Padding to two characters with a leading `0`, as `%02d` and `%02X` do and
   * as colorFloatToHex does by hand: a non-empty string comes out at least two
   * wide, at most a single `0` is put in front of it, and a string already
   * two wide is left alone; ZeroPad2KeepsValue shows it denotes the same
   * number.
   */
  function ZeroPad2(s: string): (p: string)
    ensures |s| >= 1 ==> |p| >= 2
    ensures p == s || p == "0" + s
    ensures |s| >= 2 ==> p == s
  {
    if |s| == 1 then "0" + s else s
  }

  /** The padded string denotes the same number as the original, in every base. */
  lemma ZeroPad2KeepsValue(s: string)
    ensures forall base :: ParseDigits(ZeroPad2(s), base) == ParseDigits(s, base)
  {
    ParseDigitsLeadingZero(s);
  }

  /** A number below 256 written in base 16 and padded to two characters is its two nibbles, the high one first. */
  lemma TwoHexDigits(n: int, upper: bool)
    ensures 0 <= n < 256 ==>
      ZeroPad2(FormatNat(n, 16, upper)) == [DigitChar(n / 16, upper), DigitChar(n % 16, upper)]
  {
    if 0 <= n < 16 {
      assert FormatNat(n, 16, upper) == [DigitChar(n, upper)];
    } else if 16 <= n < 256 {
      assert FormatNat(n / 16, 16, upper) == [DigitChar(n / 16, upper)];
      assert FormatNat(n, 16, upper) == FormatNat(n / 16, 16, upper) + [DigitChar(n % 16, upper)];
    }
  }

  /** `fmt.Sprintf("%02d", n)`: the decimal form of `n`, at least two characters wide. */
  function Pad2(n: int): (s: string)
    ensures |s| >= 2
    ensures 0 <= n < 100 ==> |s| == 2
    ensures ParseInt(s, 10) == n
  {
    var d := Itoa(n);
    if |d| == 1 then
      ZeroPad2KeepsValue(d);
      ZeroPad2(d)
    else
      ZeroPad2(d)
  }

  /** Two-digit padding is injective: different numbers never share a `%02d` form. */
  lemma Pad2Injective(m: int, n: int)
    requires Pad2(m) == Pad2(n)
    ensures m == n
  {
  }
}
