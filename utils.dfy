/**
 * Helpers of ui/utils.go: the background colour for hours worked, padding and
 * truncating of terminal strings, colorFloatToHex, ordering map keys by value,
 * month names, day slugs and the map of the days of a month.
 */
module Utils {
  import opened Wrappers
  import opened GoNumerics
  import opened GoFormat
  import opened ColorCodec
  import opened Styles

  // ---------------------------------------------------------------------------
  // GetBackgroundColorForHours

  /**
   * GetBackgroundColorForHours: the ColorMap entry for exactly `hours`, or ""
   * when there is none, then overridden by red above 8 hours and by purple
   * below 0.
   */
  function GetBackgroundColorForHours(hours: real): (color: string)
    ensures hours > 8.0 ==> color == "#ff0000"
    ensures hours < 0.0 ==> color == "#a2079a"
    ensures 0.0 <= hours <= 8.0 && hours in ColorMap ==> color == ColorMap[hours]
    ensures 0.0 <= hours <= 8.0 && hours !in ColorMap ==> color == ""
    ensures color == "" || IsHexColor(color)
  {
    ColorMapEntries();
    UpperHexInMap(hours);
    var colorCode := if hours in ColorMap then ColorMap[hours] else "";
    var colorCode := if hours > 8.0 then "#ff0000" else colorCode;
    if hours < 0.0 then "#a2079a" else colorCode
  }

  /** Every entry of ColorMap is empty or a well-formed colour. */
  lemma ColorMapEntries()
    ensures forall h :: h in ColorMap ==> ColorMap[h] == "" || IsUpperHexColor(ColorMap[h])
  {
  }

  /** The entry for `hours`, if any, is empty or a colour of either case. */
  lemma UpperHexInMap(hours: real)
    requires forall h :: h in ColorMap ==> ColorMap[h] == "" || IsUpperHexColor(ColorMap[h])
    ensures hours in ColorMap ==> ColorMap[hours] == "" || IsHexColor(ColorMap[hours])
  {
    if hours in ColorMap && ColorMap[hours] != "" {
      UpperHexIsHex(ColorMap[hours]);
    }
  }

  /** The 8.5 entry of the table is never returned: the override above 8 hours wins, in lower case. */
  lemma HalfPastEightShadowed()
    ensures 8.5 in ColorMap && ColorMap[8.5] == "#FF0000"
    ensures GetBackgroundColorForHours(8.5) == "#ff0000"
  {
  }

  /** Exact keys only: 4.0 has a colour, 4.3 has none, and 0.0 maps to the empty colour. */
  lemma HoursExamples()
    ensures GetBackgroundColorForHours(4.0) == "#F8AD58"
    ensures GetBackgroundColorForHours(4.3) == ""
    ensures GetBackgroundColorForHours(0.0) == ""
    ensures GetBackgroundColorForHours(9.0) == "#ff0000"
    ensures GetBackgroundColorForHours(-1.0) == "#a2079a"
  {
  }

  // ---------------------------------------------------------------------------
  // TruncateString

  /** `n` spaces. */
  function Spaces(n: nat): (s: seq<byte>)
    ensures |s| == n && forall k :: 0 <= k < n ==> s[k] == 0x20
  {
    seq(n, _ => 0x20)
  }

  /**
   * TruncateString: an input longer than `length` bytes is cut so that with the
   * ellipsis it is exactly `length` bytes long; any other input is padded with
   * spaces to `length` and followed by the reset code and `finalString`.
   * Go's slicing panics when the cut would be negative; that is the
   * precondition.
   */
  method TruncateString(input: seq<byte>, length: int, ellipsis: seq<byte>, finalString: seq<byte>)
    returns (s: seq<byte>)
    requires |input| > length ==> length >= |ellipsis|
    ensures |input| > length ==> s == input[..length - |ellipsis|] + ellipsis && |s| == length
    ensures |input| <= length ==> s == input + Spaces(length - |input|) + Reset + finalString
    ensures |input| <= length ==> |s| == length + |Reset| + |finalString| && s[..|input|] == input
  {
    if |input| > length {
      return input[..length - |ellipsis|] + ellipsis;
    }
    var sb: seq<byte> := [];
    for i := |input| to length
      invariant |sb| == i - |input|
      invariant forall k :: 0 <= k < |sb| ==> sb[k] == 0x20
    {
      sb := sb + [0x20];
    }
    assert sb == Spaces(length - |input|);
    s := input + sb + Reset + finalString;
  }

  // ---------------------------------------------------------------------------
  // colorFloatToHex

  /**
   * colorFloatToHex: `strconv.FormatInt(int64(f*255), 16)`, with a leading "0"
   * when that is a single digit. The conversion to int64 must be in range.
   */
  function ColorFloatToHex(f: real): (s: string)
    requires IsInt64(Trunc(f * 255.0))
    ensures |s| >= 2
    ensures ParseInt(s, 16) == Trunc(f * 255.0)
    ensures 0.0 <= f <= 1.0 ==>
      var n := Trunc(f * 255.0);
      0 <= n <= 255 && s == [DigitChar(n / 16, false), DigitChar(n % 16, false)]
  {
    var n := Trunc(f * 255.0);
    var digits := FormatInt(n, 16, false);
    ParseFormatInt(n, 16, false);
    assert 0.0 <= f <= 1.0 ==> 0.0 <= f * 255.0 <= 255.0;
    TwoHexDigits(n, false);
    ZeroPad2KeepsValue(digits);
    ZeroPad2(digits)
  }

  // ---------------------------------------------------------------------------
  // SortMapByValue

  /** Every key is in `m` and the values of the keys never rise along the sequence. */
  predicate DescendingByValue(keys: seq<string>, m: map<string, real>) {
    && (forall k :: 0 <= k < |keys| ==> keys[k] in m)
    && (forall i, j :: 0 <= i < j < |keys| ==> m[keys[i]] >= m[keys[j]])
  }

  /** Exchanges two elements of `a`. */
  method Swap(a: array<string>, i: nat, j: nat)
    requires i < a.Length && j < a.Length
    modifies a
    ensures a[..] == old(a[..])[i := old(a[j])][j := old(a[i])]
    ensures multiset(a[..]) == multiset(old(a[..]))
  {
    a[i], a[j] := a[j], a[i];
  }

  /**
   * One pass of the sort: the element at `i` moves left past every smaller
   * value, so that the first `i + 1` elements are in descending order.
   */
  method InsertByValue(a: array<string>, m: map<string, real>, i: nat)
    requires i < a.Length
    requires forall k :: 0 <= k < a.Length ==> a[k] in m
    requires forall p, q :: 0 <= p < q < i ==> m[a[p]] >= m[a[q]]
    modifies a
    ensures forall k :: 0 <= k < a.Length ==> a[k] in m
    ensures forall p, q :: 0 <= p < q <= i ==> m[a[p]] >= m[a[q]]
    ensures multiset(a[..]) == multiset(old(a[..]))
  {
    var j := i;
    while j > 0 && m[a[j - 1]] < m[a[j]]
      invariant 0 <= j <= i
      invariant forall k :: 0 <= k < a.Length ==> a[k] in m
      invariant forall p, q :: 0 <= p < q <= i && p != j && q != j ==> m[a[p]] >= m[a[q]]
      invariant forall q :: j < q <= i ==> m[a[j]] > m[a[q]]
      invariant multiset(a[..]) == multiset(old(a[..]))
    {
      Swap(a, j - 1, j);
      j := j - 1;
    }
  }

  /**
   * `sort.Slice(keys, func(i, j int) bool { return m[keys[i]] > m[keys[j]] })`:
   * the keys rearranged in place by descending value; the order of equal
   * values is not specified.
   */
  method SortKeysByValue(a: array<string>, m: map<string, real>)
    requires forall k :: 0 <= k < a.Length ==> a[k] in m
    modifies a
    ensures DescendingByValue(a[..], m)
    ensures multiset(a[..]) == multiset(old(a[..]))
  {
    for i := 0 to a.Length
      invariant forall k :: 0 <= k < a.Length ==> a[k] in m
      invariant forall p, q :: 0 <= p < q < i ==> m[a[p]] >= m[a[q]]
      invariant multiset(a[..]) == multiset(old(a[..]))
    {
      InsertByValue(a, m, i);
    }
  }

  /** Taking one element out of a set leaves one fewer, with the same multiset in all. */
  lemma TakeOne(rest: set<string>, k: string)
    requires k in rest
    ensures |rest - {k}| == |rest| - 1
    ensures multiset(rest - {k}) + multiset{k} == multiset(rest)
  {
  }

  /** The keys of `m`, one per slot of a new array, in an unspecified order. */
  method CollectKeys(m: map<string, real>) returns (a: array<string>)
    ensures fresh(a)
    ensures multiset(a[..]) == multiset(m.Keys)
    ensures forall k :: 0 <= k < a.Length ==> a[k] in m
  {
    a := new string[|m|];
    var n := 0;
    var rest := m.Keys;
    while rest != {}
      invariant rest <= m.Keys
      invariant n + |rest| == |m| && n <= a.Length
      invariant multiset(a[..n]) + multiset(rest) == multiset(m.Keys)
      invariant forall k :: 0 <= k < n ==> a[k] in m
      decreases |rest|
    {
      var k :| k in rest;
      TakeOne(rest, k);
      a[n] := k;
      assert a[..n + 1] == a[..n] + [k];
      n := n + 1;
      rest := rest - {k};
    }
    assert a[..] == a[..n];
  }

  /**
   * SortMapByValue: every key of `m` exactly once, ordered by descending value.
   * The keys are gathered in the map's iteration order, which Go leaves
   * unspecified, then sorted.
   */
  method SortMapByValue(m: map<string, real>) returns (keys: seq<string>)
    ensures multiset(keys) == multiset(m.Keys)
    ensures |keys| == |m|
    ensures DescendingByValue(keys, m)
    ensures forall i, j :: 0 <= i < j < |keys| ==> keys[i] != keys[j]
  {
    var a := CollectKeys(m);
    SortKeysByValue(a, m);
    keys := a[..];
    forall i, j | 0 <= i < j < |keys|
      ensures keys[i] != keys[j]
    {
      NoDuplicates(keys, m.Keys, i, j);
    }
  }

  /** A sequence with the multiset of a set holds no element twice. */
  lemma NoDuplicates(keys: seq<string>, s: set<string>, i: nat, j: nat)
    requires multiset(keys) == multiset(s)
    requires i < j < |keys|
    ensures keys[i] != keys[j]
  {
    var x := keys[i];
    assert keys == keys[..i] + [x] + keys[i + 1..j] + [keys[j]] + keys[j + 1..];
    assert multiset(s)[x] <= 1;
  }

  // ---------------------------------------------------------------------------
  // Month names

  type Month = m: int | 1 <= m <= 12 witness 1

  /** The month list IsValidMonth searches. */
  const Months: seq<string> := ["January", "February", "March", "April", "May", "June", "July",
    "August", "September", "October", "November", "December"]

  /** The lower-case names StringToMonth switches on, in calendar order. */
  const MonthNames: seq<string> := ["january", "february", "march", "april", "may", "june", "july",
    "august", "september", "october", "november", "december"]

  /**
   * unicode.ToLower on every character whose lower case is ASCII: `A`-`Z`,
   * U+0130 (dotted capital I) and U+212A (Kelvin sign). Other characters are
   * left as they are, so they stay non-ASCII, as their lower case is.
   */
  function LowerChar(c: char): (l: char)
    ensures 'A' <= c <= 'Z' ==> l as int == c as int + 32
    ensures (l as int < 128) == (c as int < 128 || c == '\U{130}' || c == '\U{212A}')
  {
    if 'A' <= c <= 'Z' then (c as int + 32) as char
    else if c == '\U{130}' then 'i'
    else if c == '\U{212A}' then 'k'
    else c
  }

  /** strings.ToLower, character by character. */
  function ToLower(s: string): (l: string)
    ensures |l| == |s| && forall i :: 0 <= i < |s| ==> l[i] == LowerChar(s[i])
  {
    seq(|s|, i requires 0 <= i < |s| => LowerChar(s[i]))
  }

  /**
   * StringToMonth for a name it knows: the month whose lower-case name equals
   * the lower-cased input. None is the branch that prints usage and exits.
   */
  function StringToMonth(monthName: string): (m: Option<Month>)
    ensures m.Some? <==> ToLower(monthName) in MonthNames
    ensures m.Some? ==> MonthNames[m.value - 1] == ToLower(monthName)
  {
    var l := ToLower(monthName);
    if l == "january" then Some(1)
    else if l == "february" then Some(2)
    else if l == "march" then Some(3)
    else if l == "april" then Some(4)
    else if l == "may" then Some(5)
    else if l == "june" then Some(6)
    else if l == "july" then Some(7)
    else if l == "august" then Some(8)
    else if l == "september" then Some(9)
    else if l == "october" then Some(10)
    else if l == "november" then Some(11)
    else if l == "december" then Some(12)
    else None
  }

  /** The capitalised list lowers to the names StringToMonth knows, in the same order. */
  lemma MonthsLowered()
    ensures |Months| == |MonthNames| == 12
    ensures forall i :: 0 <= i < 12 ==> ToLower(Months[i]) == MonthNames[i]
  {
    forall i | 0 <= i < 12
      ensures ToLower(Months[i]) == MonthNames[i]
    {
      var l := ToLower(Months[i]);
      assert |l| == |MonthNames[i]|;
      forall k | 0 <= k < |l| ensures l[k] == MonthNames[i][k] {
      }
    }
  }

  /** Each name of the list, in any case, is its month's number: January is 1, December 12. */
  lemma StringToMonthInCalendarOrder(k: Month)
    ensures StringToMonth(Months[k - 1]) == Some(k)
  {
    MonthsLowered();
  }

  /** A lower-cased input matches at most one month name. */
  lemma MonthNamesDistinct()
    ensures forall i, j :: 0 <= i < j < 12 ==> MonthNames[i] != MonthNames[j]
  {
  }

  /**
   * IsValidMonth: whether the lower-cased input equals one of the lower-cased
   * month names, found by a linear search; exactly the names StringToMonth
   * accepts.
   */
  method IsValidMonth(input: string) returns (valid: bool)
    ensures valid <==> exists i :: 0 <= i < |Months| && ToLower(Months[i]) == ToLower(input)
    ensures valid <==> StringToMonth(input).Some?
  {
    MonthsLowered();
    var inputLower := ToLower(input);
    for i := 0 to |Months|
      invariant forall k :: 0 <= k < i ==> ToLower(Months[k]) != inputLower
    {
      if ToLower(Months[i]) == inputLower {
        return true;
      }
    }
    return false;
  }

  // ---------------------------------------------------------------------------
  // SlugifyDay and CreateMonthMap

  /** SlugifyDay: `fmt.Sprintf("%d-%02d-%02d", year, month, day)`. */
  function SlugifyDay(year: int, month: int, day: int): (s: string)
    ensures 0 <= month < 100 && 0 <= day < 100 ==>
      && |s| >= 7 && s[|s| - 6] == '-' && s[|s| - 3] == '-'
      && ParseInt(s[..|s| - 6], 10) == year
      && ParseInt(s[|s| - 5..|s| - 3], 10) == month
      && ParseInt(s[|s| - 2..], 10) == day
  {
    var y, m, d := Itoa(year), Pad2(month), Pad2(day);
    if 0 <= month < 100 && 0 <= day < 100 then
      SlugParts(y, m, d);
      y + "-" + m + "-" + d
    else
      y + "-" + m + "-" + d
  }

  /** Where the three parts sit in `y-mm-dd` when month and day take two characters each. */
  lemma SlugParts(y: string, m: string, d: string)
    ensures |m| == 2 && |d| == 2 ==>
      var s := y + "-" + m + "-" + d;
      && |s| == |y| + 6 && s[..|s| - 6] == y && s[|s| - 6] == '-'
      && s[|s| - 5..|s| - 3] == m && s[|s| - 3] == '-' && s[|s| - 2..] == d
  {
  }

  /** Different dates with two-digit month and day never share a slug. */
  lemma SlugifyDayInjective(y1: int, m1: int, d1: int, y2: int, m2: int, d2: int)
    requires 0 <= m1 < 100 && 0 <= d1 < 100 && 0 <= m2 < 100 && 0 <= d2 < 100
    requires SlugifyDay(y1, m1, d1) == SlugifyDay(y2, m2, d2)
    ensures y1 == y2 && m1 == m2 && d1 == d2
  {
  }

  /** The Gregorian leap-year rule. */
  predicate IsLeapYear(year: int) {
    year % 4 == 0 && (year % 100 != 0 || year % 400 == 0)
  }

  /**
   * The day before the first of the next month, as CreateMonthMap finds it with
   * time.Date: 30 days hath September, April, June and November.
   */
  function DaysInMonth(year: int, month: Month): (n: int)
    ensures 28 <= n <= 31
    ensures month == 2 ==> (n == 29 <==> IsLeapYear(year))
  {
    if month == 2 then (if IsLeapYear(year) then 29 else 28)
    else if month == 4 || month == 6 || month == 9 || month == 11 then 30
    else 31
  }

  /** The months of a year add up to 365 days, or 366 in a leap year. */
  lemma DaysInYear(year: int)
    ensures DaysInMonth(year, 1) + DaysInMonth(year, 2) + DaysInMonth(year, 3) + DaysInMonth(year, 4)
          + DaysInMonth(year, 5) + DaysInMonth(year, 6) + DaysInMonth(year, 7) + DaysInMonth(year, 8)
          + DaysInMonth(year, 9) + DaysInMonth(year, 10) + DaysInMonth(year, 11) + DaysInMonth(year, 12)
          == if IsLeapYear(year) then 366 else 365
  {
  }

  /** The keys of `m` are the names `name(1)` to `name(days)`, and every value is 0. */
  ghost predicate IsDayMap(m: map<string, real>, name: int -> string, days: nat) {
    && |m| == days
    && (forall d :: 1 <= d <= days ==> name(d) in m)
    && (forall k :: k in m ==> m[k] == 0.0)
    && (forall k :: k in m ==> exists d :: 1 <= d <= days && k == name(d))
  }

  /** Adding a name not given to an earlier day extends the map of `day - 1` days to `day` days. */
  lemma AddDay(m: map<string, real>, name: int -> string, day: nat)
    requires 1 <= day
    requires IsDayMap(m, name, day - 1)
    requires forall d :: 1 <= d < day ==> name(d) != name(day)
    ensures IsDayMap(m[name(day) := 0.0], name, day)
  {
    var key := name(day);
    var next := m[key := 0.0];
    assert key !in m;
    assert |next| == |m| + 1;
    forall d | 1 <= d <= day
      ensures name(d) in next
    {
      if d < day {
        assert name(d) in m;
      }
    }
    forall k | k in next
      ensures next[k] == 0.0 && exists d :: 1 <= d <= day && k == name(d)
    {
      if k != key {
        assert k in m;
        var d :| 1 <= d <= day - 1 && k == name(d);
        assert 1 <= d <= day && k == name(d);
      } else {
        assert 1 <= day <= day && k == name(day);
      }
    }
  }

  /** Day slugs of one month are all different. */
  lemma SlugsDiffer(year: int, month: Month, day: int)
    requires 1 <= day <= 31
    ensures forall d :: 1 <= d < day ==> SlugifyDay(year, month, d) != SlugifyDay(year, month, day)
  {
    forall d | 1 <= d < day
      ensures SlugifyDay(year, month, d) != SlugifyDay(year, month, day)
    {
      if SlugifyDay(year, month, d) == SlugifyDay(year, month, day) {
        SlugifyDayInjective(year, month, d, year, month, day);
      }
    }
  }

  /**
   * CreateMonthMap: for a month name StringToMonth knows, a map with one key per
   * day of that month, the day's slug, each with value 0 (by SlugsDiffer the
   * map has exactly DaysInMonth entries). None is the exit
   * StringToMonth takes on an unknown name.
   */
  method CreateMonthMap(year: int, monthName: string) returns (monthMap: Option<map<string, real>>)
    ensures monthMap.None? <==> StringToMonth(monthName).None?
    ensures monthMap.Some? ==>
      var month := StringToMonth(monthName).value;
      IsDayMap(monthMap.value, d => SlugifyDay(year, month, d), DaysInMonth(year, month))
  {
    var month := StringToMonth(monthName);
    if month.None? {
      return None;
    }
    var m := month.value;
    var daysInMonth := DaysInMonth(year, m);
    var slug := d => SlugifyDay(year, m, d);
    var result: map<string, real> := map[];
    for day := 1 to daysInMonth + 1
      invariant IsDayMap(result, slug, day - 1)
    {
      SlugsDiffer(year, m, day);
      AddDay(result, slug, day);
      result := result[slug(day) := 0.0];
    }
    return Some(result);
  }
}
