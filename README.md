# Colour derivation, lookup helpers and the panel selector

A Dafny model of the sequential logic of a terminal dashboard written in Go. It has three parts.

- **Colour derivation (`ui/styles.go`).**
  - A string is hashed with 32-bit FNV-1a into a colour.
  - That colour is lightened toward white and written as `#RRGGBB`.
  - A black or white foreground is picked from its brightness.
  - Two colours are interpolated, and a three-stop gradient is generated.
  - `#RRGGBB` strings are read back with `fmt.Sscanf`.
  - An HTTP status is bucketed into a badge colour.
- **Helpers (`ui/utils.go`).**
  - The hours-to-colour lookup over the `ColorMap` table.
  - `TruncateString`.
  - `colorFloatToHex`.
  - Sorting map keys by descending value.
  - Case-insensitive month names.
  - The `YYYY-MM-DD` day slugs and the map of one zero-valued slug per day of a month.
- **The `Panel` selector (`models/panel.go`).**
  - A 64-bit integer that `Next`, `Prev` and `Reset` update in place with Go's truncating remainder.

Files and modules:

- `wrappers.dfy` (`Wrappers`): `Option`.
- `go_numerics.dfy` (`GoNumerics`): the Go semantics the code relies on:
  - `uint8`, and 64-bit `int` with wrap-around;
  - truncated `%` and `/`;
  - `uint8(float64)` / `int64(float64)` as truncation toward zero.
- `go_format.dfy` (`GoFormat`): `strconv` digit formatting and parsing, `strconv.Itoa`, `%02d`.
- `fnv.dfy` (`Fnv`): 32-bit FNV-1a over `bv32`, with the byte loop of `hash.Hash32.Write`.
- `color_codec.dfy` (`ColorCodec`): `#%02X%02X%02X` and `hexToRGB`.
- `styles.dfy` (`Styles`): the rest of `ui/styles.go`.
- `utils.dfy` (`Utils`): `ui/utils.go`.
- `models.dfy` (`Models`): `models/panel.go`.

Modelling choices:

- **Floating point is idealised.** `float64` is modelled as `real`, and `uint8(x)` as truncation toward zero (`Trunc`). This is Go's conversion for the in-range values the model allows. IEEE-754 rounding is not reproduced.
- **Byte-wise strings are `seq<byte>`.** This covers the bytes hashed by `hashRGB`, and the strings cut by `TruncateString`, whose `len` and slicing count bytes.
- **Rune-wise strings are Dafny `string`.** This covers colour strings and month names.
- **`hexToRGB` follows the code, not a stricter reading.** `Sscanf` is modelled exactly as the code uses it:
  - Leading white space before each `%02X` field is skipped, using fmt's own space table; a newline is an error.
  - Each field takes one or two hexadecimal digits of either case.
  - The scan error is dropped, so every channel after the first failure stays 0.
  - So `#FFF` reads as (255, 15, 0), and a string without `#` reads as black (`ShortColorZeroFilled`, `NoHashIsBlack`).
- **`GetBackgroundColorForHours(8.5)` returns lower-case `"#ff0000"`.** The `hours > 8` override runs after the lookup, so the table's `"#FF0000"` entry for 8.5 is never returned (`HalfPastEightShadowed`).

Some computing functions have no row of their own in the table below. The lemmas about them have rows:

- `ColorCodec.FormatHex` is `fmt.Sprintf("#%02X%02X%02X", r, g, b)` (ui/styles.go:412, 445, 475).
- `ColorCodec.HexToRgb` is `hexToRGB` (ui/styles.go:482-486).
- `Styles.Brightness` is `brightness` (ui/styles.go:381-383).
- `Fnv.Hash32a` is `fnv.New32a()`, one `Write` and `Sum32` (ui/styles.go:371-373).
- `GoFormat.ZeroPad2` is the `if len(s) == 1` padding of colorFloatToHex (ui/utils.go:104-106). `ZeroPad2KeepsValue` states what it is for, and `TwoHexDigits` gives its exact output for 0..255.
- `Styles.GradientStop` and `Styles.GradientColor` are the body of GenerateGradient's loop: the segment interpolation, then Lighten (ui/styles.go:457-474).

## Model

| member | source | states |
|---|---|---|
| GoNumerics.Wrap64 | models/panel.go:31-41 | the 64-bit `int` result of Panel arithmetic: same residue modulo 2^64, and unchanged when already in range |
| GoNumerics.Rem | models/panel.go:32 | Go's truncated `%`: the sign follows the dividend, the magnitude is below the divisor, and `a == q*b + r` |
| GoNumerics.Trunc | ui/styles.go:397-399 | `uint8(float64)`: the integer part, toward zero, within one of the real |
| GoNumerics.TruncOfInt | ui/styles.go:397-399 | converting a whole number back gives that number |
| GoNumerics.TruncWithin | ui/styles.go:397-399 | a real between two integers truncates to a value between them |
| GoNumerics.TruncMonotonic | ui/styles.go:397-399 | truncation of non-negative reals preserves order |
| GoNumerics.DivMod | ui/utils.go:103 | quotient and remainder of a base conversion step are in range and recompose the number |
| GoFormat.DigitChar | ui/utils.go:103 | `strconv`'s digit for a value reads back as that value, in the requested letter case |
| GoFormat.DigitCharOfValue | ui/styles.go:412 | a digit written in the requested case is reproduced by formatting its value |
| GoFormat.FormatNat | ui/utils.go:103 | `strconv.FormatInt` of a natural: non-empty, all digits of the base, one digit iff below the base, no leading zero |
| GoFormat.FormatInt | ui/utils.go:103 | `strconv.FormatInt`: a leading `-` iff negative |
| GoFormat.ParseFormatNat | ui/utils.go:103 | parsing the digits of a natural gives it back |
| GoFormat.ParseFormatInt | ui/utils.go:103 | parsing `strconv.FormatInt(n, base)` gives `n` back, sign included |
| GoFormat.ParseDigitsLeadingZero | ui/utils.go:104-106 | a leading zero added by padding does not change the value, in any base |
| GoFormat.Itoa | ui/styles.go:489 | `strconv.Itoa` parses back to its argument and is one character iff in 0..9 |
| GoFormat.ZeroPad2KeepsValue | ui/utils.go:104-106 | the padded string denotes the same number as the original, in every base |
| GoFormat.TwoHexDigits | ui/utils.go:102-108 | for every number in 0..255, padded base-16 formatting is exactly the high and the low nibble digit |
| GoFormat.Pad2 | ui/utils.go:168 | `%02d` parses back to its argument and is two characters for 0..99 |
| GoFormat.Pad2Injective | ui/utils.go:168 | distinct numbers get distinct `%02d` strings |
| Fnv.FoldAppend | ui/styles.go:371-373 | hashing `a` then `b` gives the state of hashing `a + b` |
| Fnv.Sum32 | ui/styles.go:371-373 | the byte loop computes FNV-1a with offset basis 2166136261 and prime 16777619, modulo 2^32 |
| Fnv.KnownValues | ui/styles.go:371-373 | the published FNV-1a values of "", "a" and "foobar" |
| Styles.HashRgb | ui/styles.go:370-378 | hashRGB's red, green and blue are bits 16..23, 8..15 and 0..7 of the FNV-1a hash of the bytes |
| Styles.LightenPoint | ui/styles.go:392-394 | `c + (255 - c) * factor` lies between `c` and 255; it is `c` at factor 0 and 255 at factor 1 |
| Styles.LightenChannel | ui/styles.go:392-399 | a lightened channel is not below the input; factor 0 leaves it, factor 1 gives 255 |
| Styles.Lighten | ui/styles.go:386-402 | every channel is not below the input, alpha is 255, factor 0 is the identity on colour and factor 1 is white |
| Styles.LightenMonotonicInFactor | ui/styles.go:392-399 | a larger factor lightens at least as much |
| Styles.LightenMonotonicInChannel | ui/styles.go:392-399 | a brighter input channel stays at least as bright after lightening |
| Styles.LightenFloor | ui/styles.go:392-399 | a lightened channel is at least `uint8(255 * factor)` |
| Styles.Foreground | ui/styles.go:381-383 | black text iff `0.299r + 0.587g + 0.114b > 128`, stated exactly in integers; white otherwise |
| Styles.ForegroundExtremes | ui/styles.go:416-421 | a white background gets black text, and a black background white text |
| Styles.ForegroundMonotonic | ui/styles.go:416-421 | brightening a background that has black text keeps black text |
| Styles.LightenedHashChannel | ui/styles.go:408 | lightening by 0.4 lifts every channel to at least 102 |
| Styles.Background | ui/styles.go:406-409 | ColoredString's background is the hashed colour lightened by 0.4: no channel below the hash's, none below 102 |
| Styles.ColoredString | ui/styles.go:405-432 | the badge keeps the text; its background is an upper-case `#RRGGBB` reading back as the background colour; its foreground follows the brightness rule and is black or white |
| Styles.BackgroundReadsBack | ui/styles.go:412-421 | the `#%02X%02X%02X` of a colour is well-formed, parses back to it, and that colour decides the foreground |
| Styles.LerpPoint | ui/styles.go:440-442 | `a*(1-t) + b*t` lies between `a` and `b`; it is `a` at 0, `b` at 1, and `a` when `a == b` |
| Styles.Lerp | ui/styles.go:440-442 | the truncated interpolation of a channel is between the two ends and hits them at 0 and 1 |
| Styles.LerpMonotonic | ui/styles.go:440-442 | interpolating upward is monotonic in `t` |
| Styles.LerpRgb | ui/styles.go:440-442 | channel by channel, the interpolated colour is between the ends and equals them at 0 and 1 |
| Styles.InterpolateHexColor | ui/styles.go:434-446 | the result is upper-case `#RRGGBB` and reads back between the colours read from the inputs; `t = 0` and `t = 1` give the inputs' colours |
| Styles.InterpolateEndpoints | ui/styles.go:434-446 | for upper-case `#RRGGBB` inputs, `t = 0` returns the first string itself and `t = 1` the second |
| Styles.Fraction | ui/styles.go:461 | `float64(i) / float64(n)` is in [0, 1], below 1 when `i < n`, and 0 at `i = 0` |
| Styles.FractionMonotonic | ui/styles.go:461 | the fraction grows with `i` |
| Styles.ChannelStop | ui/styles.go:455-471 | below the midpoint, a channel is between start and mid; from the midpoint on, between mid and end; at the midpoint it is mid; entry 0 is start when there are two entries or more |
| Styles.GenerateGradient | ui/styles.go:449-479 | exactly `steps` entries; entry `i` is the formatted lightened gradient colour `i` and is upper-case `#RRGGBB` |
| Styles.FillGradient | ui/styles.go:453-478 | the `make` and the counted loop fill entry `i` with the formatted lightened gradient colour `i` |
| Styles.GradientEntriesWellFormed | ui/styles.go:475 | every gradient entry is a 7-character upper-case hex colour |
| Styles.GradientAnchors | ui/styles.go:455-474 | with two entries or more, entry 0 is the lightened start and entry `steps / 2` the lightened mid; a single entry is the lightened mid |
| Styles.GradientStopInSegment | ui/styles.go:458-471 | before lightening, each channel lies between the channels of its segment's two anchors |
| Styles.ChannelStopMonotonic | ui/styles.go:458-471 | for ascending anchors, a channel never decreases along the gradient |
| Styles.GradientMonotonic | ui/styles.go:455-475 | for ascending anchors, lightened entries never decrease channel-wise |
| Styles.BlackToWhiteGradient | ui/styles.go:449-479 | ten steps from black through grey to white: entry 0 is black, entry 9 is `#E5E5E5`, and entries ascend |
| Styles.GetStatusColor | ui/styles.go:487-501 | label `" " + Itoa(status) + " "`; red on 500 and up, yellow on 400..499, cyan on 300..399, green below 300, with white text only on red |
| Styles.StatusLabelRoundTrip | ui/styles.go:489 | the label is the status, padded by one space on either side, that parses back to the status |
| Styles.StatusExamples | ui/styles.go:490-499 | 503, 404, 301, 200 and -1 fall in the red, yellow, cyan, green and green buckets |
| ColorCodec.UpperHexIsHex | ui/styles.go:484 | an upper-case colour is one the parser accepts |
| ColorCodec.Hex2 | ui/styles.go:412 | `%02X` of a uint8 is two upper-case digits, high nibble then low nibble |
| ColorCodec.Hex2IsPaddedHex | ui/styles.go:412 | that pair is `strconv`'s upper-case base-16 digits padded with zero to two |
| ColorCodec.FormatHexDigits | ui/styles.go:412 | `#%02X%02X%02X` writes `#` and six upper-case digits whose pairs are the three channels |
| ColorCodec.FormatHexIsThreePairs | ui/styles.go:412 | the colour string is `#` and the `%02X` of each channel |
| ColorCodec.SkipSpace | ui/styles.go:484 | the scanner fails exactly when a newline is reached through white space; otherwise it stops on the first non-space character or at the end, having passed only white space |
| ColorCodec.ScanHex2 | ui/styles.go:484 | one `%02X` field moves forward, and two hex digits are read as their pair value |
| ColorCodec.HexToRgbOfHexColor | ui/styles.go:482-486 | a well-formed `#RRGGBB` of either case is read pair by pair |
| ColorCodec.ParseFormatHex | ui/styles.go:482-486 | hexToRGB reads back exactly the channels `#%02X%02X%02X` wrote |
| ColorCodec.Hex2OfPair | ui/styles.go:412 | formatting a pair's value reproduces two upper-case digits |
| ColorCodec.FormatParseHex | ui/styles.go:482-486 | formatting what hexToRGB read from an upper-case colour gives the same string |
| ColorCodec.NoHashIsBlack | ui/styles.go:482-486 | input without a leading `#` reads as black |
| ColorCodec.LowerCaseAccepted | ui/styles.go:482-486 | lower-case digits are accepted |
| ColorCodec.ShortColorZeroFilled | ui/styles.go:482-486 | `#FFF` reads as (255, 15, 0): the scan error is dropped and later channels stay 0 |
| ColorCodec.BadDigitStopsScan | ui/styles.go:482-486 | a bad digit ends the scan, and the channels before it keep their values |
| ColorCodec.SpacesSkipped | ui/styles.go:482-486 | spaces before a field are skipped |
| Utils.ColorMapEntries | ui/styles.go:19-38 | every entry of ColorMap is an upper-case `#RRGGBB` or empty |
| Utils.GetBackgroundColorForHours | ui/utils.go:137-152 | above 8 it is `#ff0000` and below 0 `#a2079a`; otherwise the exact-key entry, or `""` when the key is missing; always a colour or empty |
| Utils.HalfPastEightShadowed | ui/utils.go:143-146 | the table's 8.5 entry is `#FF0000`, yet 8.5 returns `#ff0000` |
| Utils.HoursExamples | ui/utils.go:137-152 | 4.0 gives `#F8AD58`; 4.3 and 0.0 give `""`; 9 gives red; -1 gives purple |
| Utils.Spaces | ui/utils.go:28-30 | `n` spaces, the value the builder loop of TruncateString produces |
| Utils.TruncateString | ui/utils.go:20-33 | a long input is cut to `length - len(ellipsis)` bytes plus the ellipsis, `length` bytes in all, with no reset code; otherwise the input is padded with spaces to `length` and followed by the reset code and finalString, the input staying a prefix |
| Utils.ColorFloatToHex | ui/utils.go:102-108 | at least two digits that parse in base 16 to `int64(f*255)`; for f in [0, 1], exactly the two lower-case digits of that byte |
| Utils.Swap | ui/utils.go:174-176 | the sort's exchange swaps two slots and keeps the multiset |
| Utils.InsertByValue | ui/utils.go:174-176 | one insertion step extends the descending prefix by one and keeps the multiset |
| Utils.SortKeysByValue | ui/utils.go:174-176 | `sort.Slice` by `m[keys[i]] > m[keys[j]]` leaves the keys in descending order of value, as a permutation |
| Utils.CollectKeys | ui/utils.go:171-174 | the append loop collects every key of the map exactly once |
| Utils.SortMapByValue | ui/utils.go:170-181 | each key of `m` exactly once, ordered by descending value |
| Utils.LowerChar | ui/utils.go:183 | `unicode.ToLower` maps `A`..`Z` to lower case, and gives ASCII only for ASCII input, U+0130 and U+212A |
| Utils.ToLower | ui/utils.go:183 | `strings.ToLower` lowers each character and keeps the length |
| Utils.StringToMonth | ui/utils.go:182-208 | a month iff the lower-cased name is one of the twelve, and it is that name's month |
| Utils.MonthsLowered | ui/utils.go:294-296 | IsValidMonth's capitalised list lowers to StringToMonth's names in the same order |
| Utils.StringToMonthInCalendarOrder | ui/utils.go:182-208 | month name `k` of the calendar gives month `k` |
| Utils.MonthNamesDistinct | ui/utils.go:184-208 | the twelve cases are distinct |
| Utils.IsValidMonth | ui/utils.go:293-303 | true iff some listed month lower-cases to the lower-cased input, which is exactly when StringToMonth knows it |
| Utils.SlugifyDay | ui/utils.go:167-169 | `%d-%02d-%02d`: for month and day in 0..99 the two dashes sit at fixed positions from the end, and the three fields parse back to year, month and day |
| Utils.SlugifyDayInjective | ui/utils.go:167-169 | different dates in range get different slugs |
| Utils.DaysInMonth | ui/utils.go:272 | between 28 and 31, and February has 29 days iff the year is a Gregorian leap year |
| Utils.DaysInYear | ui/utils.go:272 | the month lengths add up to 366 in leap years and 365 otherwise |
| Utils.AddDay | ui/utils.go:278-281 | adding the slug of a new day to the map of the earlier days gives the map of one day more |
| Utils.SlugsDiffer | ui/utils.go:279 | the slugs of the days of one month are distinct |
| Utils.CreateMonthMap | ui/utils.go:268-284 | for a known month, exactly one key per day 1..daysInMonth, each `SlugifyDay(year, month, day)`, every value 0; an unknown name is the exit branch |
| Models.String | models/panel.go:12-25 | 0, 1, 2 and 3 are "Tabs", "Left Sidebar", "Central" and "Right Sidebar", both ways; everything else is "?" |
| Models.Int | models/panel.go:27-29 | the underlying integer unchanged |
| Models.WrapKeepsResidue | models/panel.go:32 | 64-bit wrap-around does not change the residue modulo 4 |
| Models.RemKeepsResidue | models/panel.go:32 | Go's `% 4` keeps the residue modulo 4 |
| Models.NextPanel | models/panel.go:31-37 | the result is never TabsPanel; it is in -3..4, has the residue of `p + 1` modulo 4, and is 1..4 from a non-negative panel |
| Models.PrevPanel | models/panel.go:39-41 | the result is in -3..3 with the residue of `p - 1` modulo 4; it is non-negative from a positive panel and not positive from 0 or a negative panel, except the least int64, which wraps to 3 |
| Models.NextTable | models/panel.go:31-37 | Next maps 0 to 1, 1 to 2, 2 to 3, 3 to 4 (shown as "?") and 4 to 1 |
| Models.PrevTable | models/panel.go:39-41 | Prev maps 4 to 3, 3 to 2, 2 to 1, 1 to 0 and 0 to -1 (shown as "?") |
| Models.PrevWrapsAtMinimum | models/panel.go:39-41 | Prev of the smallest 64-bit int wraps to 3 |
| Models.PrevUndoesNext | models/panel.go:31-41 | for panels 0..3, Prev after Next restores the panel |
| Models.NextThenPrevFromFour | models/panel.go:31-41 | from 4, Next then Prev gives 0, not 4 |
| Models.NextCycles | models/panel.go:31-37 | from 1..4, four Nexts come back to the start |
| Models.Panel.constructor | models/panel.go:5-6 | a new panel is TabsPanel |
| Models.Panel.Next | models/panel.go:31-37 | the receiver becomes NextPanel of its old value, so never TabsPanel |
| Models.Panel.Prev | models/panel.go:39-41 | the receiver becomes PrevPanel of its old value |
| Models.Panel.Reset | models/panel.go:43-45 | the receiver becomes TabsPanel whatever it was |

## Left out

- All lipgloss, termenv and aurora style construction and rendering:
  - `Style.Render`, `Bold`, `Padding`, the ANSI constant tables, `GetStringInColor`, `ColorFg` and `makeFgStyle`.
  - Presentation through libraries that are not part of this model.
  - ColoredString's `Badge` keeps only the background string, the foreground string and the text. GetStatusColor's `StatusBadge` keeps the background, the foreground and the label.
- `MakeRamp`, `makeRampStyles`, `ColorToHex` and `colorToHex`: they rely on go-colorful's `BlendLuv`, which is foreign floating-point code.
- `LatencyColorMap`: no lookup over it exists in the code.
- Progress bars, ticks and frames, the input widgets, the account tables and the colour demo: UI plumbing.
- `ClearScreen`, `AskForMonth`, `SlugifyDate`, `printEntryMessage` and `PrintExitMessage`: I/O.
- `Float64FromString`, `FormatStringAsFloatWithDecimals` and `GetTotalHoursThisMonth`: float parsing and summation. The last depends on map iteration order and rounding.
- `CenterBlockText`, `GetBoxWithShadowEffectUI`, `GetLanguageCode` and `GetLanguageFlag`: they are calls into foreign libraries or literal tables.
- IEEE-754 rounding: `Lighten`, `brightness`, interpolation and `Fraction` are computed over exact reals. A result that floating point rounds across an integer boundary may differ by one.
- Lighten, LightenChannel, Lerp, LerpRgb, InterpolateHexColor, GradientColor, FillGradient and GenerateGradient: the factor or `t` must lie in [0, 1], and factors outside that range are not modelled. Go itself would convert many such values deterministically: channel 200 with factor -0.1 becomes `uint8(194.5) == 194`. The range follows the intended use:
  - the comment at ui/styles.go:387 describes the factor as 0.0 for no change up to 0.5 for half way;
  - the one call of Lighten in ColoredString passes 0.4 (ui/styles.go:408);
  - the fractions GenerateGradient computes itself are in [0, 1] (ui/styles.go:461, 467).
- GetBackgroundColorForHours: `hours` is a `real`, so NaN and the infinities cannot be expressed. In Go, NaN gives `""`, because every comparison is false and no key matches. +Inf gives `"#ff0000"` and -Inf gives `"#a2079a"`.
- GenerateGradient: `steps` is a `nat`, because `make` panics on a negative length.
- TruncateString: requires `length >= len(ellipsis)` when the input is longer than `length`, because the Go slice expression panics otherwise.
- ColorFloatToHex: requires `f*255` to truncate into the int64 range, because an out-of-range `int64(float64)` is implementation-dependent.
- StringToMonth: the unknown-name branch prints a usage message and calls `os.Exit(1)`. It is modelled as `None`, and CreateMonthMap returns `None` there rather than halting.
- DaysInMonth: `time.Date(year, month+1, 1, ...)` minus one day is modelled by its result, the Gregorian month length, not by `time`'s normalisation.
- Utils.LowerChar: `unicode.ToLower` is modelled only as far as month names need it. It lowers `A`..`Z`, U+0130 and U+212A, the only characters whose lower case is ASCII. Other characters are left unchanged (their lower case is non-ASCII either way), so no non-ASCII input can match a month name.
- TruncateString: strings are bytes, so cutting inside a multi-byte UTF-8 sequence is modelled as Go does it, byte-wise, without decoding.
- Models.Panel: Go's `int` is taken to be 64 bits wide.
- Utils.SortMapByValue: `sort.Slice` is not stable, and its tie order is not modelled. An insertion sort stands in for it, and the contract is the order and the permutation only.
