/**
 * DateExtractor: recovers a `{day, month, year}` from the start of a file
 * name under one of four format identifiers (class `Sorter`, methods
 * `mapTextMonthToNumber`, `parseTextualDate` and `extractDate`).
 *
 * The numeric pattern of the format is tried first; only when it does not
 * match is the textual fallback tried: three components separated by
 * whitespace runs, one of them a month word. Matching is on a prefix only:
 * no pattern has an end anchor.
 */
module DateExtractor {
  import opened Wrappers
  import opened Text
  import opened Regex

  /** `Data`: the components as numbers; no calendar validation. */
  datatype Date = Date(day: int, month: int, year: int)

  /** The four recognised format identifiers. */
  datatype DateFormat = YearMonthDay | DayMonthYear | DayMonthShortYear | MonthDayYear

  function FormatId(f: DateFormat): string {
    match f
    case YearMonthDay => "YYYY-MM-DD"
    case DayMonthYear => "DD.MM.YYYY"
    case DayMonthShortYear => "DD.MM.YY"
    case MonthDayYear => "MM/DD/YYYY"
  }

  /** The `switch (dateFormat)` of `extractDate`: which case, if any, a
      format string selects. */
  function ParseFormat(s: string): (r: Option<DateFormat>)
    ensures r.Some? ==> FormatId(r.value) == s
    ensures r.None? ==> forall f: DateFormat :: FormatId(f) != s
  {
    if s == "YYYY-MM-DD" then Some(YearMonthDay)
    else if s == "DD.MM.YYYY" then Some(DayMonthYear)
    else if s == "DD.MM.YY" then Some(DayMonthShortYear)
    else if s == "MM/DD/YYYY" then Some(MonthDayYear)
    else None
  }

  // ---------------------------------------------------------------------
  // Month words

  /** `toLowerCase` on the characters the month-word class admits: ASCII
      letters and the Cyrillic block U+0400..U+042F; others are unchanged. */
  function LowerChar(c: char): (r: char)
    ensures IsMonthLetter(c) ==> IsMonthLetter(r)
    ensures c as int < 128 <==> r as int < 128
  {
    if 'A' <= c <= 'Z' then (c as int + 32) as char
    else if '\U{0410}' <= c <= '\U{042F}' then (c as int + 32) as char
    else if '\U{0400}' <= c <= '\U{040F}' then (c as int + 80) as char
    else c
  }

  function Lower(s: string): (r: string)
    ensures |r| == |s| && forall i :: 0 <= i < |s| ==> r[i] == LowerChar(s[i])
  {
    seq(|s|, i requires 0 <= i < |s| => LowerChar(s[i]))
  }

  /** `replace(/\.$/, '')`: drop one final full stop, if there is one. */
  function StripTrailingDot(s: string): (r: string)
    ensures |s| > 0 && s[|s| - 1] == '.' ==> r == s[..|s| - 1]
    ensures !(|s| > 0 && s[|s| - 1] == '.') ==> r == s
  {
    if |s| > 0 && s[|s| - 1] == '.' then s[..|s| - 1] else s
  }

  /** The month table: English names and abbreviations only. */
  const MonthTable: map<string, int> := map[
    "january" := 1, "jan" := 1,
    "february" := 2, "feb" := 2,
    "march" := 3, "mar" := 3,
    "april" := 4, "apr" := 4,
    "may" := 5,
    "june" := 6, "jun" := 6,
    "july" := 7, "jul" := 7,
    "august" := 8, "aug" := 8,
    "september" := 9, "sep" := 9, "sept" := 9,
    "october" := 10, "oct" := 10,
    "november" := 11, "nov" := 11,
    "december" := 12, "dec" := 12
  ]

  /** The key a month token is looked up under. */
  function MonthKey(token: string): string {
    StripTrailingDot(Lower(token))
  }

  /** `mapTextMonthToNumber`. */
  function MonthNumber(token: string): (r: Option<int>)
    ensures r.Some? <==> MonthKey(token) in MonthTable
    ensures r.Some? ==> 1 <= r.value <= 12
  {
    var key := MonthKey(token);
    if key in MonthTable then Some(MonthTable[key]) else None
  }

  // ---------------------------------------------------------------------
  // Patterns

  /** `(\d{1,2})` */
  const DayGroup: Piece := Rep(Digit, 1, Some(2), true)
  /** `([A-Za-zА-Яа-яЁё\.]+)` */
  const MonthWordGroup: Piece := Rep(MonthLetter, 1, None, true)
  /** `\s+` */
  const Spaces: Piece := Rep(Space, 1, None, false)

  /** `(\d{4})` or `(\d{2})` */
  function YearGroup(width: nat): Piece {
    Rep(Digit, width, Some(width), true)
  }

  /** The numeric regular expression of each format. */
  function NumericPattern(f: DateFormat): Pattern {
    match f
    case YearMonthDay => Triple(YearGroup(4), Lit('-'), DayGroup, DayGroup)
    case DayMonthYear => Triple(DayGroup, Lit('.'), DayGroup, YearGroup(4))
    case DayMonthShortYear => Triple(DayGroup, Lit('.'), DayGroup, YearGroup(2))
    case MonthDayYear => Triple(DayGroup, Lit('/'), DayGroup, YearGroup(4))
  }

  /** A component of the textual form. */
  datatype Part = Y | M | D

  /** The orders `parseTextualDate` is called with are permutations of y, m, d. */
  predicate ValidOrder(order: seq<Part>) {
    |order| == 3 && order[0] != order[1] && order[0] != order[2] && order[1] != order[2]
  }

  /** The textual component order of each format. */
  function TextualOrder(f: DateFormat): (order: seq<Part>)
    ensures ValidOrder(order)
  {
    match f
    case YearMonthDay => [Y, M, D]
    case DayMonthYear => [D, M, Y]
    case DayMonthShortYear => [D, M, Y]
    case MonthDayYear => [M, D, Y]
  }

  /** The year width the textual fallback of each format expects. */
  function YearDigits(f: DateFormat): (w: nat)
    ensures w == 2 || w == 4
  {
    if f == DayMonthShortYear then 2 else 4
  }

  /** `tokenToPattern`. */
  function PartGroup(part: Part, width: nat): Piece {
    match part
    case Y => YearGroup(width)
    case M => MonthWordGroup
    case D => DayGroup
  }

  /** `^${parts[0]}\s+${parts[1]}\s+${parts[2]}` */
  function TextualPattern(order: seq<Part>, width: nat): Pattern
    requires |order| == 3
  {
    Triple(PartGroup(order[0], width), Spaces, PartGroup(order[1], width), PartGroup(order[2], width))
  }

  lemma NumericPatternShape(f: DateFormat)
    ensures WellFormed(NumericPattern(f))
  {
    match f
    case YearMonthDay => TripleWellFormed(YearGroup(4), Lit('-'), DayGroup, DayGroup);
    case DayMonthYear => TripleWellFormed(DayGroup, Lit('.'), DayGroup, YearGroup(4));
    case DayMonthShortYear => TripleWellFormed(DayGroup, Lit('.'), DayGroup, YearGroup(2));
    case MonthDayYear => TripleWellFormed(DayGroup, Lit('/'), DayGroup, YearGroup(4));
  }

  lemma TextualPatternShape(order: seq<Part>, width: nat)
    requires ValidOrder(order) && width >= 1
    ensures WellFormed(TextualPattern(order, width))
  {
    TripleWellFormed(PartGroup(order[0], width), Spaces, PartGroup(order[1], width), PartGroup(order[2], width));
  }

  /** `Match` on a numeric pattern is what an ECMAScript regular expression
      engine finds for it. */
  lemma NumericMatchIsBacktrack(s: string, f: DateFormat)
    ensures Match(s, 0, NumericPattern(f)) == Backtrack(s, 0, NumericPattern(f))
  {
    NumericPatternShape(f);
    MatchIsBacktrack(s, 0, NumericPattern(f));
  }

  /** `Match` on a textual pattern is what an ECMAScript regular expression
      engine finds for it. */
  lemma TextualMatchIsBacktrack(s: string, order: seq<Part>, width: nat)
    requires ValidOrder(order) && width >= 1
    ensures Match(s, 0, TextualPattern(order, width)) == Backtrack(s, 0, TextualPattern(order, width))
  {
    TextualPatternShape(order, width);
    MatchIsBacktrack(s, 0, TextualPattern(order, width));
  }

  /** What a numeric match captures: three digit strings of the widths the
      format's groups allow. */
  lemma NumericCaptures(f: DateFormat, caps: seq<string>)
    requires Fits(caps, NumericPattern(f))
    ensures |caps| == 3 && AllDigits(caps[0]) && AllDigits(caps[1]) && AllDigits(caps[2])
    ensures f == DayMonthShortYear ==> |caps[2]| == 2
    ensures f == YearMonthDay ==> |caps[0]| == 4 && 1 <= |caps[1]| <= 2 && 1 <= |caps[2]| <= 2
    ensures f != YearMonthDay ==> 1 <= |caps[0]| <= 2 && 1 <= |caps[1]| <= 2
    ensures f == DayMonthYear || f == MonthDayYear ==> |caps[2]| == 4
  {
    match f
    case YearMonthDay => TripleFits(caps, YearGroup(4), Lit('-'), DayGroup, DayGroup);
    case DayMonthYear => TripleFits(caps, DayGroup, Lit('.'), DayGroup, YearGroup(4));
    case DayMonthShortYear => TripleFits(caps, DayGroup, Lit('.'), DayGroup, YearGroup(2));
    case MonthDayYear => TripleFits(caps, DayGroup, Lit('/'), DayGroup, YearGroup(4));
  }

  /** What a textual match captures: group `j` is consumable by the pattern
      of `order[j]`. */
  lemma TextualCaptures(order: seq<Part>, width: nat, caps: seq<string>)
    requires |order| == 3 && Fits(caps, TextualPattern(order, width))
    ensures |caps| == 3
    ensures forall j :: 0 <= j < 3 ==> Spans(caps[j], PartGroup(order[j], width))
  {
    TripleFits(caps, PartGroup(order[0], width), Spaces, PartGroup(order[1], width), PartGroup(order[2], width));
  }

  // ---------------------------------------------------------------------
  // Numeric path

  /** The two-digit year rule of the textual path: maps 00..49 onto 2000..2049 and 50..99 onto 1950..1999, keeping the
      two digits as the last two of the year. */
  function ExpandYear(yy: int): (year: int)
    ensures 0 <= yy < 100 ==> 1950 <= year <= 2049 && year % 100 == yy
  {
    if yy < 50 then 2000 + yy else 1900 + yy
  }

  /** `new Data(day, month, year)` from the numeric groups, with `DD.MM.YY`
      prefixing `20` or `19` to the two year digits. */
  function NumericDate(f: DateFormat, caps: seq<string>): (r: Date)
    requires Fits(caps, NumericPattern(f))
    ensures 0 <= r.day <= 99 && 0 <= r.month <= 99
  {
    NumericCaptures(f, caps);
    assert Pow10(1) == 10 && Pow10(2) == 100;
    match f
    case YearMonthDay => Date(DigitsValue(caps[2]), DigitsValue(caps[1]), DigitsValue(caps[0]))
    case DayMonthYear => Date(DigitsValue(caps[0]), DigitsValue(caps[1]), DigitsValue(caps[2]))
    case DayMonthShortYear =>
      var century := if DigitsValue(caps[2]) < 50 then "20" else "19";
      DigitsValueAppend(century, caps[2]);
      Date(DigitsValue(caps[0]), DigitsValue(caps[1]), DigitsValue(century + caps[2]))
    case MonthDayYear => Date(DigitsValue(caps[1]), DigitsValue(caps[0]), DigitsValue(caps[2]))
  }

  // ---------------------------------------------------------------------
  // Textual path

  function IndexOf(order: seq<Part>, part: Part): (j: nat)
    requires ValidOrder(order)
    ensures j < 3 && order[j] == part
  {
    if order[0] == part then 0 else if order[1] == part then 1 else 2
  }

  /** The capture group that holds component `part`. */
  function Pick(order: seq<Part>, caps: seq<string>, part: Part): string
    requires ValidOrder(order) && |caps| == 3
  {
    caps[IndexOf(order, part)]
  }

  /** The tail of `parseTextualDate` once the three component strings are
      known: month lookup, year width check, two-digit expansion, bounds. */
  function FromComponents(dayStr: string, monthStr: string, yearStr: string, width: nat): (r: Option<Date>)
    requires AllDigits(dayStr) && AllDigits(yearStr)
    requires width == 2 || width == 4
    ensures r.Some? ==> 1 <= r.value.day <= 31 && 1 <= r.value.month <= 12
    ensures r.Some? ==> |yearStr| == width
  {
    match MonthNumber(monthStr)
    case None => None
    case Some(monthNum) =>
      if (width == 4 && |yearStr| != 4) || (width == 2 && |yearStr| != 2) then None
      else
        var yearNum := if |yearStr| == 2 then ExpandYear(DigitsValue(yearStr)) else DigitsValue(yearStr);
        var dayNum := DigitsValue(dayStr);
        if dayNum < 1 || dayNum > 31 then None
        else if monthNum < 1 || monthNum > 12 then None
        else Some(Date(dayNum, monthNum, yearNum))
  }

  /** `parseTextualDate`, with each component read from the group at its
      position in `order`. */
  function TextualDate(fileName: string, order: seq<Part>, width: nat): (r: Option<Date>)
    requires ValidOrder(order) && (width == 2 || width == 4)
    ensures r.Some? ==> 1 <= r.value.day <= 31 && 1 <= r.value.month <= 12
  {
    match Match(fileName, 0, TextualPattern(order, width))
    case None => None
    case Some(caps) =>
      TextualCaptures(order, width, caps);
      assert AllDigits(Pick(order, caps, D)) by {
        assert Spans(caps[IndexOf(order, D)], DayGroup);
      }
      assert AllDigits(Pick(order, caps, Y)) by {
        assert Spans(caps[IndexOf(order, Y)], YearGroup(width));
      }
      FromComponents(Pick(order, caps, D), Pick(order, caps, M), Pick(order, caps, Y), width)
  }

  /** `parseTextualDate` as written: the `forEach` over `order` assigns each
      group to the component named at its position. */
  method ParseTextualDate(fileName: string, order: seq<Part>, expectedYearDigits: nat) returns (r: Option<Date>)
    requires ValidOrder(order) && (expectedYearDigits == 2 || expectedYearDigits == 4)
    ensures r == TextualDate(fileName, order, expectedYearDigits)
  {
    var found := Match(fileName, 0, TextualPattern(order, expectedYearDigits));
    if found.None? {
      return None;
    }
    var caps := found.value;
    TextualCaptures(order, expectedYearDigits, caps);
    var dayStr, monthStr, yearStr := "", "", "";
    for idx := 0 to 3
      invariant dayStr == if IndexOf(order, D) < idx then caps[IndexOf(order, D)] else ""
      invariant monthStr == if IndexOf(order, M) < idx then caps[IndexOf(order, M)] else ""
      invariant yearStr == if IndexOf(order, Y) < idx then caps[IndexOf(order, Y)] else ""
    {
      var val := if idx == 0 then caps[0] else if idx == 1 then caps[1] else caps[2];
      if order[idx] == D {
        dayStr := val;
      }
      if order[idx] == M {
        monthStr := val;
      }
      if order[idx] == Y {
        yearStr := val;
      }
    }
    assert Spans(caps[IndexOf(order, D)], DayGroup);
    assert Spans(caps[IndexOf(order, Y)], YearGroup(expectedYearDigits));
    r := FromComponents(dayStr, monthStr, yearStr, expectedYearDigits);
  }

  // ---------------------------------------------------------------------
  // extractDate

  /** `extractDate`: the numeric pattern of the format if it matches, the
      textual fallback otherwise; an unknown format gives no date. */
  function ExtractDate(fileName: string, dateFormat: string): (r: Option<Date>)
    ensures ParseFormat(dateFormat).None? ==> r.None?
    ensures r.Some? ==> 0 <= r.value.day <= 99 && 0 <= r.value.month <= 99
  {
    match ParseFormat(dateFormat)
    case None => None
    case Some(f) =>
      match Match(fileName, 0, NumericPattern(f))
      case Some(caps) => Some(NumericDate(f, caps))
      case None => TextualDate(fileName, TextualOrder(f), YearDigits(f))
  }
}
