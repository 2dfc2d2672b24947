/**
 * Colour derivation in ui/styles.go: the FNV-based hash colour, Lighten, the
 * brightness test that picks black or white text, linear interpolation of two
 * colours, the three-stop gradient, the HTTP status buckets and the table of
 * colours for hours worked.
 *
 * Go computes Lighten, brightness and the interpolations in float64; the model
 * computes them over exact reals and truncates as Go's `uint8(x)` does.
 */
module Styles {
  import opened GoNumerics
  import opened GoFormat
  import opened ColorCodec
  import Fnv

  /** Go's color.RGBA. */
  datatype Rgba = Rgba(r: Uint8, g: Uint8, b: Uint8, a: Uint8)

  function RgbOf(c: Rgba): Rgb {
    Rgb(c.r, c.g, c.b)
  }

  function Opaque(c: Rgb): Rgba {
    Rgba(c.r, c.g, c.b, 255)
  }

  /** The ANSI code `\033[0m` (Reset), as bytes. */
  const Reset: seq<byte> := [0x1B, 0x5B, 0x30, 0x6D]

  function Min(a: int, b: int): int {
    if a <= b then a else b
  }

  function Max(a: int, b: int): int {
    if a <= b then b else a
  }

  /** `v` lies between `a` and `b`, whichever is larger. */
  predicate Between(v: int, a: int, b: int) {
    Min(a, b) <= v <= Max(a, b)
  }

  predicate LeqRgb(c: Rgb, d: Rgb) {
    c.r <= d.r && c.g <= d.g && c.b <= d.b
  }

  // ---------------------------------------------------------------------------
  // hashRGB

  /**
   * hashRGB: bits 16..23, 8..15 and 0..7 of the 32-bit FNV-1a hash of the
   * bytes of `s`, as red, green and blue.
   */
  function HashRgb(s: seq<byte>): (c: (byte, byte, byte))
    ensures ((c.0 as bv32) << 16) | ((c.1 as bv32) << 8) | (c.2 as bv32) == Fnv.Hash32a(s) & 0xFF_FFFF
  {
    var sum := Fnv.Hash32a(s);
    (((sum >> 16) & 0xFF) as bv8, ((sum >> 8) & 0xFF) as bv8, (sum & 0xFF) as bv8)
  }

  // ---------------------------------------------------------------------------
  // Lighten

  /** Scaling a value not below zero by a fraction in [0, 1] keeps it between 0 and itself. */
  lemma ScaleBelow(d: real, t: real, p: real)
    requires 0.0 <= d && 0.0 <= t <= 1.0 && p == d * t
    ensures 0.0 <= p <= d
  {
    assert d - p == d * (1.0 - t);
  }

  /** Scaling a value not below zero is monotonic in the scale. */
  lemma ScaleMonotonic(d: real, t1: real, t2: real, p1: real, p2: real)
    requires 0.0 <= d && t1 <= t2 && p1 == d * t1 && p2 == d * t2
    ensures p1 <= p2
  {
    assert p2 - p1 == d * (t2 - t1);
  }

  /** The point Lighten truncates, `c + (255 - c) * factor`, lies between c and 255. */
  lemma LightenPoint(c: Uint8, factor: real, x: real)
    requires 0.0 <= factor <= 1.0
    requires x == c as real + (255.0 - c as real) * factor
    ensures c as real <= x <= 255.0
      && (factor == 0.0 ==> x == c as real)
      && (factor == 1.0 ==> x == 255.0)
  {
    var d := 255.0 - c as real;
    ScaleBelow(d, factor, d * factor);
  }

  /** One channel of Lighten: `uint8(c + (255 - c) * factor)`. */
  function LightenChannel(c: Uint8, factor: real): (l: Uint8)
    requires 0.0 <= factor <= 1.0
    ensures c <= l
    ensures factor == 0.0 ==> l == c
    ensures factor == 1.0 ==> l == 255
  {
    var x := c as real + (255.0 - c as real) * factor;
    LightenPoint(c, factor, x);
    TruncWithin(x, c, 255);
    TruncOfInt(c);
    TruncOfInt(255);
    Trunc(x)
  }

  /**
   * Lighten moves each channel toward 255 by `factor` of the distance left
   * and makes the colour opaque.
   */
  function Lighten(c: Rgba, factor: real): (l: Rgba)
    requires 0.0 <= factor <= 1.0
    ensures c.r <= l.r && c.g <= l.g && c.b <= l.b
    ensures l.a == 255
    ensures factor == 0.0 ==> RgbOf(l) == RgbOf(c)
    ensures factor == 1.0 ==> RgbOf(l) == Rgb(255, 255, 255)
  {
    Rgba(LightenChannel(c.r, factor), LightenChannel(c.g, factor), LightenChannel(c.b, factor), 255)
  }

  /** A larger factor never gives a darker channel. */
  lemma LightenMonotonicInFactor(c: Uint8, f1: real, f2: real)
    requires 0.0 <= f1 <= f2 <= 1.0
    ensures LightenChannel(c, f1) <= LightenChannel(c, f2)
  {
    var d := 255.0 - c as real;
    var x1, x2 := c as real + d * f1, c as real + d * f2;
    ScaleMonotonic(d, f1, f2, d * f1, d * f2);
    LightenPoint(c, f1, x1);
    TruncMonotonic(x1, x2);
  }

  /** A brighter channel stays at least as bright after lightening. */
  lemma LightenMonotonicInChannel(c1: Uint8, c2: Uint8, f: real)
    requires c1 <= c2 && 0.0 <= f <= 1.0
    ensures LightenChannel(c1, f) <= LightenChannel(c2, f)
  {
    var x1 := c1 as real + (255.0 - c1 as real) * f;
    var x2 := c2 as real + (255.0 - c2 as real) * f;
    var d := c2 as real - c1 as real;
    var q := d * (1.0 - f);
    ScaleBelow(d, 1.0 - f, q);
    assert x2 - x1 == q;
    LightenPoint(c1, f, x1);
    TruncMonotonic(x1, x2);
  }

  /** Lightening by `factor` lifts every channel to at least `uint8(255 * factor)`. */
  lemma LightenFloor(c: Uint8, factor: real)
    requires 0.0 <= factor <= 1.0
    ensures Trunc(255.0 * factor) <= LightenChannel(c, factor)
  {
    var x := c as real + (255.0 - c as real) * factor;
    var q := c as real * (1.0 - factor);
    ScaleBelow(c as real, 1.0 - factor, q);
    assert x == 255.0 * factor + q;
    TruncMonotonic(255.0 * factor, x);
  }

  // ---------------------------------------------------------------------------
  // brightness and ColoredString

  /** brightness: the luma approximation 0.299 R + 0.587 G + 0.114 B. */
  function Brightness(r: Uint8, g: Uint8, b: Uint8): real {
    0.299 * r as real + 0.587 * g as real + 0.114 * b as real
  }

  /** A colour whose brightness is above 128 gets black text, any other white text. */
  function Foreground(c: Rgb): (fg: string)
    ensures fg == "#000000" || fg == "#FFFFFF"
    ensures fg == "#000000" <==> 299 * c.r + 587 * c.g + 114 * c.b > 128000
  {
    if Brightness(c.r, c.g, c.b) > 128.0 then "#000000" else "#FFFFFF"
  }

  /** White text on black, black text on white. */
  lemma ForegroundExtremes()
    ensures Foreground(Rgb(255, 255, 255)) == "#000000"
    ensures Foreground(Rgb(0, 0, 0)) == "#FFFFFF"
  {
  }

  /** A background that is at least as light in every channel never switches black text back to white. */
  lemma ForegroundMonotonic(c: Rgb, d: Rgb)
    requires LeqRgb(c, d) && Foreground(c) == "#000000"
    ensures Foreground(d) == "#000000"
  {
  }

  /** Lightening by 0.4, as ColoredString does, lifts every channel to at least 102. */
  lemma LightenedHashChannel(c: Uint8)
    ensures 102 <= LightenChannel(c, 0.4)
  {
    LightenFloor(c, 0.4);
    assert 255.0 * 0.4 == 102.0;
    TruncOfInt(102);
  }

  /** What ColoredString renders: background and foreground colours and the text itself. */
  datatype Badge = Badge(background: string, foreground: string, text: seq<byte>)

  /** The background colour ColoredString gives `s`: its hash colour lightened by 0.4. */
  function Background(s: seq<byte>): (c: Rgb)
    ensures 102 <= c.r && 102 <= c.g && 102 <= c.b
    ensures var h := HashRgb(s); h.0 as int <= c.r && h.1 as int <= c.g && h.2 as int <= c.b
  {
    var (r, g, b) := HashRgb(s);
    LightenedHashChannel(r as int);
    LightenedHashChannel(g as int);
    LightenedHashChannel(b as int);
    RgbOf(Lighten(Rgba(r as int, g as int, b as int, 255), 0.4))
  }

  /**
   * ColoredString: the text on its Background, written `#RRGGBB` so that it
   * reads back as that colour, with the foreground chosen by its brightness.
   */
  function ColoredString(s: seq<byte>): (badge: Badge)
    ensures badge.text == s
    ensures IsUpperHexColor(badge.background) && HexToRgb(badge.background) == Background(s)
    ensures var c := Background(s);
      badge.foreground == "#000000" <==> 299 * c.r + 587 * c.g + 114 * c.b > 128000
    ensures badge.foreground == "#000000" || badge.foreground == "#FFFFFF"
  {
    var c := Background(s);
    BackgroundReadsBack(c);
    Badge(FormatHex(c), Foreground(c), s)
  }

  /** The written background parses back to its colour, which then decides the foreground. */
  lemma BackgroundReadsBack(c: Rgb)
    ensures IsUpperHexColor(FormatHex(c))
    ensures HexToRgb(FormatHex(c)) == c
    ensures Foreground(c) == "#000000" <==> 299 * c.r + 587 * c.g + 114 * c.b > 128000
  {
    FormatHexDigits(c);
    ParseFormatHex(c);
  }

  // ---------------------------------------------------------------------------
  // InterpolateHexColor

  /** The point Lerp truncates, `a * (1 - t) + b * t`, lies between a and b. */
  lemma LerpPoint(a: Uint8, b: Uint8, t: real, x: real)
    requires 0.0 <= t <= 1.0
    requires x == a as real * (1.0 - t) + b as real * t
    ensures Min(a, b) as real <= x <= Max(a, b) as real
      && (t == 0.0 ==> x == a as real)
      && (t == 1.0 ==> x == b as real)
      && (a == b ==> x == a as real)
  {
    var d := b as real - a as real;
    var p := d * t;
    assert x == a as real + p;
    if a <= b {
      ScaleBelow(d, t, p);
    } else {
      ScaleBelow(-d, t, -p);
    }
  }

  /** `uint8(float64(a)*(1-t) + float64(b)*t)`: one channel interpolated linearly and truncated. */
  function Lerp(a: Uint8, b: Uint8, t: real): (v: Uint8)
    requires 0.0 <= t <= 1.0
    ensures Between(v, a, b)
    ensures t == 0.0 ==> v == a
    ensures t == 1.0 ==> v == b
    ensures a == b ==> v == a
  {
    var x := a as real * (1.0 - t) + b as real * t;
    LerpPoint(a, b, t, x);
    TruncWithin(x, Min(a, b), Max(a, b));
    TruncOfInt(a);
    TruncOfInt(b);
    Trunc(x)
  }

  /** Going further along a rising segment never gives a smaller channel. */
  lemma LerpMonotonic(a: Uint8, b: Uint8, t1: real, t2: real)
    requires a <= b && 0.0 <= t1 <= t2 <= 1.0
    ensures Lerp(a, b, t1) <= Lerp(a, b, t2)
  {
    var d := b as real - a as real;
    var x1, x2 := a as real * (1.0 - t1) + b as real * t1, a as real * (1.0 - t2) + b as real * t2;
    assert x1 == a as real + d * t1 && x2 == a as real + d * t2;
    ScaleMonotonic(d, t1, t2, d * t1, d * t2);
    LerpPoint(a, b, t1, x1);
    TruncMonotonic(x1, x2);
  }

  /** The colour at fraction `t` of the way from `c1` to `c2`, channel by channel. */
  function LerpRgb(c1: Rgb, c2: Rgb, t: real): (c: Rgb)
    requires 0.0 <= t <= 1.0
    ensures Between(c.r, c1.r, c2.r) && Between(c.g, c1.g, c2.g) && Between(c.b, c1.b, c2.b)
    ensures t == 0.0 ==> c == c1
    ensures t == 1.0 ==> c == c2
    ensures c1 == c2 ==> c == c1
  {
    Rgb(Lerp(c1.r, c2.r, t), Lerp(c1.g, c2.g, t), Lerp(c1.b, c2.b, t))
  }

  /**
   * InterpolateHexColor: both colours are read with hexToRGB, interpolated in
   * plain RGB at fraction `t` and written back as `#RRGGBB`.
   */
  function InterpolateHexColor(color1: string, color2: string, t: real): (s: string)
    requires 0.0 <= t <= 1.0
    ensures IsUpperHexColor(s)
    ensures var c, c1, c2 := HexToRgb(s), HexToRgb(color1), HexToRgb(color2);
      Between(c.r, c1.r, c2.r) && Between(c.g, c1.g, c2.g) && Between(c.b, c1.b, c2.b)
    ensures t == 0.0 ==> HexToRgb(s) == HexToRgb(color1)
    ensures t == 1.0 ==> HexToRgb(s) == HexToRgb(color2)
    ensures HexToRgb(color1) == HexToRgb(color2) ==> HexToRgb(s) == HexToRgb(color1)
  {
    var c := LerpRgb(HexToRgb(color1), HexToRgb(color2), t);
    FormatHexDigits(c);
    ParseFormatHex(c);
    FormatHex(c)
  }

  /** For well-formed upper-case end points, fraction 0 returns the first colour string itself and fraction 1 the second. */
  lemma InterpolateEndpoints(color1: string, color2: string)
    requires IsUpperHexColor(color1) && IsUpperHexColor(color2)
    ensures InterpolateHexColor(color1, color2, 0.0) == color1
    ensures InterpolateHexColor(color1, color2, 1.0) == color2
  {
    FormatParseHex(color1);
    FormatParseHex(color2);
  }

  // ---------------------------------------------------------------------------
  // GenerateGradient

  /** `float64(i) / float64(n)`, a fraction in [0, 1]. */
  function Fraction(i: nat, n: nat): (t: real)
    requires i <= n && n > 0
    ensures 0.0 <= t <= 1.0
    ensures i < n ==> t < 1.0
    ensures i == 0 ==> t == 0.0
  {
    var t := i as real / n as real;
    QuotientBounds(i as real, n as real, t);
    t
  }

  /** A quotient `t = i / n` with `0 <= i <= n` lies in [0, 1]. */
  lemma QuotientBounds(i: real, n: real, t: real)
    requires 0.0 <= i <= n && 0.0 < n && t * n == i
    ensures 0.0 <= t <= 1.0
    ensures i < n ==> t < 1.0
    ensures i == 0.0 ==> t == 0.0
  {
    assert (t - 1.0) * n == i - n;
  }

  lemma FractionMonotonic(i: nat, j: nat, n: nat)
    requires i <= j <= n && n > 0
    ensures Fraction(i, n) <= Fraction(j, n)
  {
    assert Fraction(j, n) - Fraction(i, n) == (j - i) as real / n as real;
  }

  /**
   * One channel of entry `i` of a gradient of `steps` entries, before
   * lightening: below the midpoint `steps / 2` it runs from `s` toward `m`, from
   * the midpoint on from `m` toward `e`.
   */
  function ChannelStop(s: Uint8, m: Uint8, e: Uint8, steps: nat, i: nat): (v: Uint8)
    requires i < steps
    ensures i < steps / 2 ==> Between(v, s, m)
    ensures i >= steps / 2 ==> Between(v, m, e)
    ensures i == steps / 2 ==> v == m
    ensures i == 0 && steps >= 2 ==> v == s
  {
    var midpoint := steps / 2;
    if i < midpoint then Lerp(s, m, Fraction(i, midpoint))
    else Lerp(m, e, Fraction(i - midpoint, steps - midpoint))
  }

  /** Entry `i` of the gradient before lightening. */
  function GradientStop(start: Rgb, mid: Rgb, end: Rgb, steps: nat, i: nat): Rgb
    requires i < steps
  {
    Rgb(ChannelStop(start.r, mid.r, end.r, steps, i),
        ChannelStop(start.g, mid.g, end.g, steps, i),
        ChannelStop(start.b, mid.b, end.b, steps, i))
  }

  /** Entry `i` of the gradient: the stop lightened by `factor`. */
  function GradientColor(start: Rgb, mid: Rgb, end: Rgb, steps: nat, factor: real, i: nat): Rgb
    requires i < steps && 0.0 <= factor <= 1.0
  {
    RgbOf(Lighten(Opaque(GradientStop(start, mid, end, steps, i)), factor))
  }

  /**
   * GenerateGradient: a slice of `steps` colours from `startHex` through
   * `midHex` to `endHex`, each lightened by `lightenFactor` and written
   * `#RRGGBB`, filled in index order.
   */
  method GenerateGradient(startHex: string, midHex: string, endHex: string, steps: nat, lightenFactor: real)
    returns (gradient: seq<string>)
    requires 0.0 <= lightenFactor <= 1.0
    ensures |gradient| == steps
    ensures forall i :: 0 <= i < steps ==>
      gradient[i] == FormatHex(GradientColor(HexToRgb(startHex), HexToRgb(midHex), HexToRgb(endHex), steps, lightenFactor, i))
    ensures forall i :: 0 <= i < steps ==> IsUpperHexColor(gradient[i])
  {
    var start, mid, end := HexToRgb(startHex), HexToRgb(midHex), HexToRgb(endHex);
    gradient := FillGradient(start, mid, end, steps, lightenFactor);
    GradientEntriesWellFormed(start, mid, end, steps, lightenFactor);
  }

  /** The loop of GenerateGradient over the three parsed anchors: `make` the slice, then fill entry `i` in turn. */
  method FillGradient(start: Rgb, mid: Rgb, end: Rgb, steps: nat, lightenFactor: real) returns (gradient: seq<string>)
    requires 0.0 <= lightenFactor <= 1.0
    ensures |gradient| == steps
    ensures forall i :: 0 <= i < steps ==> gradient[i] == FormatHex(GradientColor(start, mid, end, steps, lightenFactor, i))
  {
    var a := new string[steps];
    for i := 0 to steps
      invariant forall k :: 0 <= k < i ==> a[k] == FormatHex(GradientColor(start, mid, end, steps, lightenFactor, k))
    {
      a[i] := FormatHex(GradientColor(start, mid, end, steps, lightenFactor, i));
    }
    gradient := a[..];
  }


  /** Every gradient entry, written as GenerateGradient writes it, is a well-formed `#RRGGBB` colour. */
  lemma GradientEntriesWellFormed(start: Rgb, mid: Rgb, end: Rgb, steps: nat, factor: real)
    requires 0.0 <= factor <= 1.0
    ensures forall i :: 0 <= i < steps ==> IsUpperHexColor(FormatHex(GradientColor(start, mid, end, steps, factor, i)))
  {
    forall i | 0 <= i < steps
      ensures IsUpperHexColor(FormatHex(GradientColor(start, mid, end, steps, factor, i)))
    {
      FormatHexDigits(GradientColor(start, mid, end, steps, factor, i));
    }
  }

  /**
   * The anchors of the gradient: with two or more entries, entry 0 is the
   * lightened start and entry `steps / 2` the lightened midpoint colour; a
   * single entry is the lightened midpoint colour.
   */
  lemma GradientAnchors(start: Rgb, mid: Rgb, end: Rgb, steps: nat, factor: real)
    requires steps >= 1 && 0.0 <= factor <= 1.0
    ensures steps >= 2 ==> GradientColor(start, mid, end, steps, factor, 0) == RgbOf(Lighten(Opaque(start), factor))
    ensures GradientColor(start, mid, end, steps, factor, steps / 2) == RgbOf(Lighten(Opaque(mid), factor))
    ensures steps == 1 ==> GradientColor(start, mid, end, steps, factor, 0) == RgbOf(Lighten(Opaque(mid), factor))
  {
  }

  /** Each stop before lightening lies channel by channel between the two anchors of its segment. */
  lemma GradientStopInSegment(start: Rgb, mid: Rgb, end: Rgb, steps: nat, i: nat)
    requires i < steps
    ensures var c := GradientStop(start, mid, end, steps, i);
      if i < steps / 2 then Between(c.r, start.r, mid.r) && Between(c.g, start.g, mid.g) && Between(c.b, start.b, mid.b)
      else Between(c.r, mid.r, end.r) && Between(c.g, mid.g, end.g) && Between(c.b, mid.b, end.b)
  {
  }

  /** On rising anchors a channel of the gradient never falls from one entry to a later one. */
  lemma ChannelStopMonotonic(s: Uint8, m: Uint8, e: Uint8, steps: nat, i: nat, j: nat)
    requires s <= m <= e && i <= j < steps
    ensures ChannelStop(s, m, e, steps, i) <= ChannelStop(s, m, e, steps, j)
  {
    var midpoint := steps / 2;
    if j < midpoint {
      FractionMonotonic(i, j, midpoint);
      LerpMonotonic(s, m, Fraction(i, midpoint), Fraction(j, midpoint));
    } else if i >= midpoint {
      FractionMonotonic(i - midpoint, j - midpoint, steps - midpoint);
      LerpMonotonic(m, e, Fraction(i - midpoint, steps - midpoint), Fraction(j - midpoint, steps - midpoint));
    }
  }

  /**
   * When start, midpoint and end colours rise in every channel, so does the
   * gradient, lightening included.
   */
  lemma GradientMonotonic(start: Rgb, mid: Rgb, end: Rgb, steps: nat, factor: real, i: nat, j: nat)
    requires LeqRgb(start, mid) && LeqRgb(mid, end)
    requires i <= j < steps && 0.0 <= factor <= 1.0
    ensures LeqRgb(GradientColor(start, mid, end, steps, factor, i), GradientColor(start, mid, end, steps, factor, j))
  {
    var ci, cj := GradientStop(start, mid, end, steps, i), GradientStop(start, mid, end, steps, j);
    ChannelStopMonotonic(start.r, mid.r, end.r, steps, i, j);
    ChannelStopMonotonic(start.g, mid.g, end.g, steps, i, j);
    ChannelStopMonotonic(start.b, mid.b, end.b, steps, i, j);
    LightenMonotonicInChannel(ci.r, cj.r, factor);
    LightenMonotonicInChannel(ci.g, cj.g, factor);
    LightenMonotonicInChannel(ci.b, cj.b, factor);
  }

  /**
   * Ten steps from black through grey 0x80 to white, not lightened: entry 0 is
   * black, entry 9 is 0xE5 grey, and brightness never falls along the way.
   */
  lemma BlackToWhiteGradient(i: nat, j: nat)
    requires i <= j < 10
    ensures var black, grey, white := Rgb(0, 0, 0), Rgb(0x80, 0x80, 0x80), Rgb(255, 255, 255);
      && GradientColor(black, grey, white, 10, 0.0, 0) == black
      && GradientColor(black, grey, white, 10, 0.0, 9) == Rgb(0xE5, 0xE5, 0xE5)
      && LeqRgb(GradientColor(black, grey, white, 10, 0.0, i), GradientColor(black, grey, white, 10, 0.0, j))
  {
    var black, grey, white := Rgb(0, 0, 0), Rgb(0x80, 0x80, 0x80), Rgb(255, 255, 255);
    GradientMonotonic(black, grey, white, 10, 0.0, i, j);
    assert Fraction(4, 5) == 0.8;
    assert ChannelStop(0, 0x80, 255, 10, 9) == Lerp(0x80, 255, 0.8);
    assert 128.0 * (1.0 - 0.8) + 255.0 * 0.8 == 229.6;
  }

  // ---------------------------------------------------------------------------
  // GetStatusColor

  const StatusMultipleChoices := 300
  const StatusBadRequest := 400
  const StatusInternalServerError := 500

  /** The aurora colours GetStatusColor uses. */
  datatype AnsiColor = Red | Yellow | Cyan | Green | White | Black

  /** An aurora value: text with a background and a foreground colour. */
  datatype StatusBadge = StatusBadge(background: AnsiColor, foreground: AnsiColor, text: string)

  /**
   * GetStatusColor: the status written ` <status> ` on a background chosen by
   * the first of the buckets 500 and up, 400 and up, 300 and up that holds, and
   * green otherwise; only the red bucket has white text.
   */
  function GetStatusColor(status: int): (v: StatusBadge)
    ensures v.text == " " + Itoa(status) + " "
    ensures v.background == Red <==> status >= 500
    ensures v.background == Yellow <==> 400 <= status < 500
    ensures v.background == Cyan <==> 300 <= status < 400
    ensures v.background == Green <==> status < 300
    ensures v.foreground == (if status >= 500 then White else Black)
  {
    var statusSpaced := " " + Itoa(status) + " ";
    if status >= StatusInternalServerError then StatusBadge(Red, White, statusSpaced)
    else if status >= StatusBadRequest then StatusBadge(Yellow, Black, statusSpaced)
    else if status >= StatusMultipleChoices then StatusBadge(Cyan, Black, statusSpaced)
    else StatusBadge(Green, Black, statusSpaced)
  }

  /** The status can be read back from the label between its two spaces. */
  lemma StatusLabelRoundTrip(status: int)
    ensures var t := GetStatusColor(status).text;
      |t| >= 3 && t[0] == ' ' && t[|t| - 1] == ' ' && ParseInt(t[1..|t| - 1], 10) == status
  {
    var t := GetStatusColor(status).text;
    assert t[1..|t| - 1] == Itoa(status);
  }

  /** The four buckets on typical codes. */
  lemma StatusExamples()
    ensures GetStatusColor(503).background == Red && GetStatusColor(503).foreground == White
    ensures GetStatusColor(404).background == Yellow && GetStatusColor(404).foreground == Black
    ensures GetStatusColor(301).background == Cyan && GetStatusColor(301).foreground == Black
    ensures GetStatusColor(200).background == Green && GetStatusColor(200).foreground == Black
    ensures GetStatusColor(-1).background == Green
  {
  }

  // ---------------------------------------------------------------------------
  // ColorMap

  /** The colours for hours worked, keyed by half hours from 0 to 8.5. */
  const ColorMap: map<real, string> := map[
    8.5 := "#FF0000",
    8.0 := "#FF0000",
    7.5 := "#D9534F",
    7.0 := "#EC6B4E",
    6.5 := "#F07848",
    6.0 := "#F28445",
    5.5 := "#F49142",
    5.0 := "#F6964C",
    4.5 := "#F7A352",
    4.0 := "#F8AD58",
    3.5 := "#F8B665",
    3.0 := "#F8BA6A",
    2.5 := "#F8C077",
    2.0 := "#F8C680",
    1.5 := "#F8CB88",
    1.0 := "#F8D091",
    0.5 := "#F8D495",
    0.0 := ""
  ]
}
