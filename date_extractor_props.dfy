/**
 * Properties of `DateExtractor`: the month lookup, round trips through the
 * numeric and textual forms of each format, the conditions under which the
 * textual fallback rejects a name, and the behaviour shown by the sorter's
 * unit tests.
 */
module DateExtractorProperties {
  import opened Wrappers
  import opened Text
  import opened Regex
  import opened DateExtractor

  // ---------------------------------------------------------------------
  // Format identifiers

  lemma FormatIdRoundTrip(f: DateFormat)
    ensures ParseFormat(FormatId(f)) == Some(f)
  {
    match f
    case YearMonthDay =>
    case DayMonthYear =>
    case DayMonthShortYear =>
    case MonthDayYear =>
  }

  // ---------------------------------------------------------------------
  // Month words

  predicate IsAsciiLetter(c: char) {
    ('A' <= c <= 'Z') || ('a' <= c <= 'z')
  }

  /** The Cyrillic letters of the month-word class. */
  predicate IsCyrillic(c: char) {
    ('\U{0410}' <= c <= '\U{044F}') || c == '\U{0401}' || c == '\U{0451}'
  }

  /** Every key of the month table is a word of lower-case ASCII letters. */
  lemma TableKeyIsAsciiLower(k: string)
    requires k in MonthTable
    ensures forall j :: 0 <= j < |k| ==> 'a' <= k[j] <= 'z'
  {
  }

  lemma LowerCharIdempotent(c: char)
    ensures LowerChar(LowerChar(c)) == LowerChar(c)
  {
  }

  /** Upper and lower case make no difference to the lookup. */
  lemma MonthCaseInsensitive(token: string)
    ensures MonthNumber(Lower(token)) == MonthNumber(token)
  {
    forall i | 0 <= i < |token| ensures Lower(Lower(token))[i] == Lower(token)[i] {
      LowerCharIdempotent(token[i]);
    }
    assert Lower(Lower(token)) == Lower(token);
  }

  /** Exactly one trailing full stop is dropped: adding one to a token
      that has none changes nothing, adding one to a token that already
      ends in one makes it unknown. */
  lemma OneTrailingDot(token: string)
    ensures MonthNumber(token + ".")
            == if |token| > 0 && token[|token| - 1] == '.' then None else MonthNumber(token)
  {
    var low := Lower(token);
    assert Lower(token + ".") == low + "." by {
      forall i | 0 <= i < |token| ensures Lower(token + ".")[i] == low[i] {
        assert (token + ".")[i] == token[i];
      }
    }
    assert (low + ".")[..|low|] == low;
    if |token| > 0 && token[|token| - 1] == '.' {
      assert low[|low| - 1] == '.';
      if low in MonthTable {
        TableKeyIsAsciiLower(low);
      }
    } else if |token| > 0 {
      assert low[|low| - 1] != '.';
    }
  }

  /** Only tokens made of ASCII letters, with at most a final full stop,
      name a month. */
  lemma OnlyAsciiTokens(token: string)
    requires MonthNumber(token).Some?
    ensures forall i :: 0 <= i < |token| ==>
              IsAsciiLetter(token[i]) || (i == |token| - 1 && token[i] == '.')
  {
    var key := MonthKey(token);
    TableKeyIsAsciiLower(key);
    assert |key| == |token| || |key| == |token| - 1;
    forall i | 0 <= i < |token|
      ensures IsAsciiLetter(token[i]) || (i == |token| - 1 && token[i] == '.')
    {
      if i < |key| {
        assert key[i] == LowerChar(token[i]);
      } else {
        assert LowerChar(token[i]) == '.';
      }
    }
  }

  /** The month-word pattern admits Cyrillic letters, but no token holding
      one names a month. */
  lemma CyrillicNeverNamesMonth(token: string, i: nat)
    requires i < |token| && IsCyrillic(token[i])
    ensures MonthNumber(token) == None
  {
    if MonthNumber(token).Some? {
      OnlyAsciiTokens(token);
    }
  }

  lemma MonthExamples()
    ensures MonthNumber("sept") == Some(9)
    ensures MonthNumber("Sept.") == Some(9)
    ensures MonthNumber("SEPTEMBER") == Some(9)
    ensures MonthNumber("Aug") == Some(8)
    ensures MonthNumber("Jan") == Some(1)
  {
    assert Lower("sept") == "sept";
    assert Lower("Sept.") == "sept." && "sept."[..4] == "sept";
    assert Lower("SEPTEMBER") == "september";
    assert Lower("Aug") == "aug";
    assert Lower("Jan") == "jan";
  }

  /** `сентябрь` (September in Russian) is not in the table. */
  lemma RussianMonthExample()
    ensures MonthNumber("\U{0441}\U{0435}\U{043D}\U{0442}\U{044F}\U{0431}\U{0440}\U{044C}") == None
  {
    CyrillicNeverNamesMonth("\U{0441}\U{0435}\U{043D}\U{0442}\U{044F}\U{0431}\U{0440}\U{044C}", 0);
  }

  // ---------------------------------------------------------------------
  // Two-digit years

  lemma CenturyValues()
    ensures DigitsValue("20") == 20 && DigitsValue("19") == 19
  {
    assert "20"[..1] == "2" && "2"[..0] == "";
    assert "19"[..1] == "1" && "1"[..0] == "";
  }

  /** The numeric `DD.MM.YY` path prefixes `20` or `19` to the two digits;
      that is the same rule as the textual path's arithmetic expansion. */
  lemma CenturyPrefixIsExpandYear(yy: string)
    requires AllDigits(yy) && |yy| == 2
    ensures var century := if DigitsValue(yy) < 50 then "20" else "19";
            AllDigits(century + yy) && DigitsValue(century + yy) == ExpandYear(DigitsValue(yy))
  {
    CenturyValues();
    var century := if DigitsValue(yy) < 50 then "20" else "19";
    DigitsValueAppend(century, yy);
    assert Pow10(2) == 100;
  }

  // ---------------------------------------------------------------------
  // Numeric forms

  /** The separator of each format's numeric form. */
  function Separator(f: DateFormat): char {
    match f
    case YearMonthDay => '-'
    case DayMonthYear => '.'
    case DayMonthShortYear => '.'
    case MonthDayYear => '/'
  }

  /** Day, month and year components in the order in which `f`'s patterns
      capture them: the numeric pattern and the textual fallback use the
      same order, so this serves both (in a textual form `mm` is the month
      word). */
  function InFormatOrder(f: DateFormat, dd: string, mm: string, yy: string): (caps: seq<string>)
    ensures |caps| == 3
  {
    match f
    case YearMonthDay => [yy, mm, dd]
    case DayMonthYear => [dd, mm, yy]
    case DayMonthShortYear => [dd, mm, yy]
    case MonthDayYear => [mm, dd, yy]
  }

  /** A date written in the numeric form of `f` with the given digit strings. */
  function DigitText(f: DateFormat, dd: string, mm: string, yy: string): string {
    var caps, sep := InFormatOrder(f, dd, mm, yy), [Separator(f)];
    caps[0] + sep + caps[1] + sep + caps[2]
  }

  /** What a numeric form must satisfy for the pattern to capture its
      components: day and month of one or two digits, a year of the group
      width, and for `YYYY-MM-DD`, whose last group is the day, no digit
      right after a one-digit day. */
  predicate NumericShape(f: DateFormat, dd: string, mm: string, yy: string, rest: string) {
    && AllDigits(dd) && 1 <= |dd| <= 2
    && AllDigits(mm) && 1 <= |mm| <= 2
    && AllDigits(yy) && |yy| == YearDigits(f)
    && (f == YearMonthDay ==> |dd| == 2 || rest == [] || !IsDigit(rest[0]))
  }

  lemma DigitTextMatches(f: DateFormat, dd: string, mm: string, yy: string, rest: string)
    requires NumericShape(f, dd, mm, yy, rest)
    ensures Match(DigitText(f, dd, mm, yy) + rest, 0, NumericPattern(f)) == Some(InFormatOrder(f, dd, mm, yy))
  {
    match f
    case YearMonthDay => YearMonthDayDigitsMatch(dd, mm, yy, rest);
    case DayMonthYear => DayMonthYearDigitsMatch(dd, mm, yy, rest);
    case DayMonthShortYear => DayMonthShortYearDigitsMatch(dd, mm, yy, rest);
    case MonthDayYear => MonthDayYearDigitsMatch(dd, mm, yy, rest);
  }

  lemma YearMonthDayDigitsMatch(dd: string, mm: string, yy: string, rest: string)
    requires NumericShape(YearMonthDay, dd, mm, yy, rest)
    ensures Match(DigitText(YearMonthDay, dd, mm, yy) + rest, 0, NumericPattern(YearMonthDay)) == Some(InFormatOrder(YearMonthDay, dd, mm, yy))
  {
    assert DigitText(YearMonthDay, dd, mm, yy) + rest == yy + (['-'] + (mm + (['-'] + (dd + rest))));
    MatchTripleSome(yy + (['-'] + (mm + (['-'] + (dd + rest)))), YearGroup(4), Lit('-'), DayGroup, DayGroup, yy, ['-'], mm, ['-'], dd, rest);
  }

  lemma DayMonthYearDigitsMatch(dd: string, mm: string, yy: string, rest: string)
    requires NumericShape(DayMonthYear, dd, mm, yy, rest)
    ensures Match(DigitText(DayMonthYear, dd, mm, yy) + rest, 0, NumericPattern(DayMonthYear)) == Some(InFormatOrder(DayMonthYear, dd, mm, yy))
  {
    assert DigitText(DayMonthYear, dd, mm, yy) + rest == dd + (['.'] + (mm + (['.'] + (yy + rest))));
    MatchTripleSome(dd + (['.'] + (mm + (['.'] + (yy + rest)))), DayGroup, Lit('.'), DayGroup, YearGroup(4), dd, ['.'], mm, ['.'], yy, rest);
  }

  lemma DayMonthShortYearDigitsMatch(dd: string, mm: string, yy: string, rest: string)
    requires NumericShape(DayMonthShortYear, dd, mm, yy, rest)
    ensures Match(DigitText(DayMonthShortYear, dd, mm, yy) + rest, 0, NumericPattern(DayMonthShortYear)) == Some(InFormatOrder(DayMonthShortYear, dd, mm, yy))
  {
    assert DigitText(DayMonthShortYear, dd, mm, yy) + rest == dd + (['.'] + (mm + (['.'] + (yy + rest))));
    MatchTripleSome(dd + (['.'] + (mm + (['.'] + (yy + rest)))), DayGroup, Lit('.'), DayGroup, YearGroup(2), dd, ['.'], mm, ['.'], yy, rest);
  }

  lemma MonthDayYearDigitsMatch(dd: string, mm: string, yy: string, rest: string)
    requires NumericShape(MonthDayYear, dd, mm, yy, rest)
    ensures Match(DigitText(MonthDayYear, dd, mm, yy) + rest, 0, NumericPattern(MonthDayYear)) == Some(InFormatOrder(MonthDayYear, dd, mm, yy))
  {
    assert DigitText(MonthDayYear, dd, mm, yy) + rest == mm + (['/'] + (dd + (['/'] + (yy + rest))));
    MatchTripleSome(mm + (['/'] + (dd + (['/'] + (yy + rest)))), DayGroup, Lit('/'), DayGroup, YearGroup(4), mm, ['/'], dd, ['/'], yy, rest);
  }

  lemma DigitGroupsDate(f: DateFormat, dd: string, mm: string, yy: string)
    requires NumericShape(f, dd, mm, yy, [])
    requires Fits(InFormatOrder(f, dd, mm, yy), NumericPattern(f))
    ensures NumericDate(f, InFormatOrder(f, dd, mm, yy))
            == Date(DigitsValue(dd), DigitsValue(mm),
                    if f == DayMonthShortYear then ExpandYear(DigitsValue(yy)) else DigitsValue(yy))
  {
    if f == DayMonthShortYear {
      CenturyPrefixIsExpandYear(yy);
    }
  }

  /** Whatever follows a numeric form, with or without leading zeros in
      the day and month, the components come back as written; no bounds
      are checked on this path, and `DD.MM.YY` expands the year. */
  lemma DigitTextRoundTrip(f: DateFormat, dd: string, mm: string, yy: string, rest: string)
    requires NumericShape(f, dd, mm, yy, rest)
    ensures ExtractDate(DigitText(f, dd, mm, yy) + rest, FormatId(f))
            == Some(Date(DigitsValue(dd), DigitsValue(mm),
                         if f == DayMonthShortYear then ExpandYear(DigitsValue(yy)) else DigitsValue(yy)))
  {
    FormatIdRoundTrip(f);
    DigitTextMatches(f, dd, mm, yy, rest);
    DigitGroupsDate(f, dd, mm, yy);
  }

  /** The numeric form of `f` for a date, each component zero-padded to
      its group width. */
  function NumericText(f: DateFormat, d: nat, m: nat, y: nat): string {
    DigitText(f, Padded(d, 2), Padded(m, 2), Padded(y, YearDigits(f)))
  }

  /** The zero-padded numeric form of a date gives that date back. */
  lemma NumericRoundTrip(f: DateFormat, d: nat, m: nat, y: nat, rest: string)
    requires d < 100 && m < 100 && y < Pow10(YearDigits(f))
    ensures ExtractDate(NumericText(f, d, m, y) + rest, FormatId(f))
            == Some(Date(d, m, if f == DayMonthShortYear then ExpandYear(y) else y))
  {
    assert Pow10(2) == 100;
    PaddedRoundTrip(d, 2);
    PaddedRoundTrip(m, 2);
    PaddedRoundTrip(y, YearDigits(f));
    DigitTextRoundTrip(f, Padded(d, 2), Padded(m, 2), Padded(y, YearDigits(f)), rest);
  }

  // ---------------------------------------------------------------------
  // Textual forms

  /** A non-empty run of `\s` characters. */
  predicate Whitespace(u: string) {
    |u| >= 1 && forall j :: 0 <= j < |u| ==> IsSpace(u[j])
  }

  /** A non-empty word of the month-word class. */
  predicate MonthWord(w: string) {
    |w| >= 1 && forall j :: 0 <= j < |w| ==> IsMonthLetter(w[j])
  }

  /** A date written in the textual form of `f`, with `sp1` and `sp2`
      between the components. */
  function TextualText(f: DateFormat, dayStr: string, word: string, yearStr: string,
                       sp1: string, sp2: string): string
  {
    var caps := InFormatOrder(f, dayStr, word, yearStr);
    caps[0] + sp1 + caps[1] + sp2 + caps[2]
  }

  /** What a textual form must satisfy for the fallback pattern to capture
      its components: digit strings of the group widths, a month word, and
      for `YYYY-MM-DD`, whose last group is the day, no digit right after a
      one-digit day. */
  predicate TextualShape(f: DateFormat, dayStr: string, word: string, yearStr: string,
                         sp1: string, sp2: string, rest: string)
  {
    && AllDigits(dayStr) && 1 <= |dayStr| <= 2
    && AllDigits(yearStr) && |yearStr| == YearDigits(f)
    && MonthWord(word) && Whitespace(sp1) && Whitespace(sp2)
    && (f == YearMonthDay ==> |dayStr| == 2 || rest == [] || !IsDigit(rest[0]))
  }

  lemma TextualTextMatches(f: DateFormat, dayStr: string, word: string, yearStr: string,
                           sp1: string, sp2: string, rest: string)
    requires TextualShape(f, dayStr, word, yearStr, sp1, sp2, rest)
    ensures Match(TextualText(f, dayStr, word, yearStr, sp1, sp2) + rest, 0,
                  TextualPattern(TextualOrder(f), YearDigits(f)))
            == Some(InFormatOrder(f, dayStr, word, yearStr))
  {
    match f
    case YearMonthDay => TextualYearMonthDayMatches(dayStr, word, yearStr, sp1, sp2, rest);
    case DayMonthYear => TextualDayMonthYearMatches(dayStr, word, yearStr, sp1, sp2, rest);
    case DayMonthShortYear => TextualDayMonthShortYearMatches(dayStr, word, yearStr, sp1, sp2, rest);
    case MonthDayYear => TextualMonthDayYearMatches(dayStr, word, yearStr, sp1, sp2, rest);
  }

  lemma TextualYearMonthDayMatches(dayStr: string, word: string, yearStr: string,
                           sp1: string, sp2: string, rest: string)
    requires TextualShape(YearMonthDay, dayStr, word, yearStr, sp1, sp2, rest)
    ensures Match(TextualText(YearMonthDay, dayStr, word, yearStr, sp1, sp2) + rest, 0,
                  TextualPattern(TextualOrder(YearMonthDay), YearDigits(YearMonthDay)))
            == Some(InFormatOrder(YearMonthDay, dayStr, word, yearStr))
  {
    assert TextualText(YearMonthDay, dayStr, word, yearStr, sp1, sp2) + rest == yearStr + (sp1 + (word + (sp2 + (dayStr + rest))));
    MatchTripleSome(yearStr + (sp1 + (word + (sp2 + (dayStr + rest)))), YearGroup(4), Spaces, MonthWordGroup, DayGroup, yearStr, sp1, word, sp2, dayStr, rest);
  }

  lemma TextualDayMonthYearMatches(dayStr: string, word: string, yearStr: string,
                           sp1: string, sp2: string, rest: string)
    requires TextualShape(DayMonthYear, dayStr, word, yearStr, sp1, sp2, rest)
    ensures Match(TextualText(DayMonthYear, dayStr, word, yearStr, sp1, sp2) + rest, 0,
                  TextualPattern(TextualOrder(DayMonthYear), YearDigits(DayMonthYear)))
            == Some(InFormatOrder(DayMonthYear, dayStr, word, yearStr))
  {
    assert TextualText(DayMonthYear, dayStr, word, yearStr, sp1, sp2) + rest == dayStr + (sp1 + (word + (sp2 + (yearStr + rest))));
    MatchTripleSome(dayStr + (sp1 + (word + (sp2 + (yearStr + rest)))), DayGroup, Spaces, MonthWordGroup, YearGroup(4), dayStr, sp1, word, sp2, yearStr, rest);
  }

  lemma TextualDayMonthShortYearMatches(dayStr: string, word: string, yearStr: string,
                           sp1: string, sp2: string, rest: string)
    requires TextualShape(DayMonthShortYear, dayStr, word, yearStr, sp1, sp2, rest)
    ensures Match(TextualText(DayMonthShortYear, dayStr, word, yearStr, sp1, sp2) + rest, 0,
                  TextualPattern(TextualOrder(DayMonthShortYear), YearDigits(DayMonthShortYear)))
            == Some(InFormatOrder(DayMonthShortYear, dayStr, word, yearStr))
  {
    assert TextualText(DayMonthShortYear, dayStr, word, yearStr, sp1, sp2) + rest == dayStr + (sp1 + (word + (sp2 + (yearStr + rest))));
    MatchTripleSome(dayStr + (sp1 + (word + (sp2 + (yearStr + rest)))), DayGroup, Spaces, MonthWordGroup, YearGroup(2), dayStr, sp1, word, sp2, yearStr, rest);
  }

  lemma TextualMonthDayYearMatches(dayStr: string, word: string, yearStr: string,
                           sp1: string, sp2: string, rest: string)
    requires TextualShape(MonthDayYear, dayStr, word, yearStr, sp1, sp2, rest)
    ensures Match(TextualText(MonthDayYear, dayStr, word, yearStr, sp1, sp2) + rest, 0,
                  TextualPattern(TextualOrder(MonthDayYear), YearDigits(MonthDayYear)))
            == Some(InFormatOrder(MonthDayYear, dayStr, word, yearStr))
  {
    assert TextualText(MonthDayYear, dayStr, word, yearStr, sp1, sp2) + rest == word + (sp1 + (dayStr + (sp2 + (yearStr + rest))));
    MatchTripleSome(word + (sp1 + (dayStr + (sp2 + (yearStr + rest)))), MonthWordGroup, Spaces, DayGroup, YearGroup(4), word, sp1, dayStr, sp2, yearStr, rest);
  }

  /** A textual form never matches the numeric pattern of its format: after
      the first component comes whitespace instead of the separator, or, for
      `MM/DD/YYYY`, the name starts with a letter instead of a digit. */
  lemma TextualTextNotNumeric(f: DateFormat, dayStr: string, word: string, yearStr: string,
                              sp1: string, sp2: string, rest: string)
    requires TextualShape(f, dayStr, word, yearStr, sp1, sp2, rest)
    ensures Match(TextualText(f, dayStr, word, yearStr, sp1, sp2) + rest, 0, NumericPattern(f)) == None
  {
    var caps := InFormatOrder(f, dayStr, word, yearStr);
    var s := TextualText(f, dayStr, word, yearStr, sp1, sp2) + rest;
    var after := sp1 + caps[1] + sp2 + caps[2] + rest;
    assert s == caps[0] + after;
    assert after[0] == sp1[0];
    match f
    case YearMonthDay =>
      MatchTripleNoSep(s, YearGroup(4), Lit('-'), DayGroup, DayGroup, caps[0], after);
    case DayMonthYear =>
      MatchTripleNoSep(s, DayGroup, Lit('.'), DayGroup, YearGroup(4), caps[0], after);
    case DayMonthShortYear =>
      MatchTripleNoSep(s, DayGroup, Lit('.'), DayGroup, YearGroup(2), caps[0], after);
    case MonthDayYear =>
      assert s[0] == word[0];
      MatchTripleNoStart(s, DayGroup, Lit('/'), DayGroup, YearGroup(4));
  }

  /** The outcome of the checks after the textual match: a date exactly
      when the month word is in the table, the year has the expected width
      and the day is within 1..31. */
  lemma FromComponentsMeaning(dayStr: string, monthStr: string, yearStr: string, width: nat)
    requires AllDigits(dayStr) && AllDigits(yearStr) && (width == 2 || width == 4)
    ensures FromComponents(dayStr, monthStr, yearStr, width)
            == if MonthNumber(monthStr).Some? && |yearStr| == width && 1 <= DigitsValue(dayStr) <= 31
               then Some(Date(DigitsValue(dayStr), MonthNumber(monthStr).value,
                              if width == 2 then ExpandYear(DigitsValue(yearStr)) else DigitsValue(yearStr)))
               else None
  {
  }

  /** The textual fallback end to end: for a name laid out in the textual
      form of its format, `extractDate` gives the date exactly when the
      month word is known and the day is within 1..31. */
  lemma TextualFallback(f: DateFormat, dayStr: string, word: string, yearStr: string,
                        sp1: string, sp2: string, rest: string)
    requires TextualShape(f, dayStr, word, yearStr, sp1, sp2, rest)
    ensures ExtractDate(TextualText(f, dayStr, word, yearStr, sp1, sp2) + rest, FormatId(f))
            == if MonthNumber(word).Some? && 1 <= DigitsValue(dayStr) <= 31
               then Some(Date(DigitsValue(dayStr), MonthNumber(word).value,
                              if f == DayMonthShortYear then ExpandYear(DigitsValue(yearStr))
                              else DigitsValue(yearStr)))
               else None
  {
    FormatIdRoundTrip(f);
    TextualTextNotNumeric(f, dayStr, word, yearStr, sp1, sp2, rest);
    TextualTextMatches(f, dayStr, word, yearStr, sp1, sp2, rest);
    FromComponentsMeaning(dayStr, word, yearStr, YearDigits(f));
  }

  /** In every format, both patterns reject a name in the textual form whose
      year has fewer digits than the format's year group: the leading year
      of `YYYY-MM-DD` stops the match at the first group, a trailing year
      at the last. The width check after the match is never what decides. */
  lemma ShortYearRejected(f: DateFormat, dayStr: string, word: string, yearStr: string,
                          sp1: string, sp2: string, rest: string)
    requires AllDigits(dayStr) && 1 <= |dayStr| <= 2
    requires AllDigits(yearStr) && 1 <= |yearStr| < YearDigits(f)
    requires MonthWord(word) && Whitespace(sp1) && Whitespace(sp2)
    requires rest == [] || !IsDigit(rest[0])
    ensures ExtractDate(TextualText(f, dayStr, word, yearStr, sp1, sp2) + rest, FormatId(f)) == None
  {
    FormatIdRoundTrip(f);
    match f
    case YearMonthDay => ShortLeadingYearRejected(dayStr, word, yearStr, sp1, sp2, rest);
    case DayMonthYear => ShortTrailingYearRejected(DayMonthYear, dayStr, word, yearStr, sp1, sp2, rest);
    case DayMonthShortYear => ShortTrailingYearRejected(DayMonthShortYear, dayStr, word, yearStr, sp1, sp2, rest);
    case MonthDayYear => ShortTrailingYearRejected(MonthDayYear, dayStr, word, yearStr, sp1, sp2, rest);
  }

  /** `YYYY-MM-DD`: a year of one to three digits fails both patterns at
      their first group. */
  lemma ShortLeadingYearRejected(dayStr: string, word: string, yearStr: string,
                                 sp1: string, sp2: string, rest: string)
    requires AllDigits(yearStr) && |yearStr| < 4 && Whitespace(sp1)
    ensures var s := TextualText(YearMonthDay, dayStr, word, yearStr, sp1, sp2) + rest;
            Match(s, 0, NumericPattern(YearMonthDay)) == None
            && Match(s, 0, TextualPattern(TextualOrder(YearMonthDay), YearDigits(YearMonthDay))) == None
  {
    var s := TextualText(YearMonthDay, dayStr, word, yearStr, sp1, sp2) + rest;
    var after := sp1 + word + sp2 + dayStr + rest;
    assert s == yearStr + after && after[0] == sp1[0];
    MatchTripleShortFirst(s, YearGroup(4), Lit('-'), DayGroup, DayGroup, yearStr, after);
    MatchTripleShortFirst(s, YearGroup(4), Spaces, MonthWordGroup, DayGroup, yearStr, after);
  }

  /** The other formats: the name fails the numeric pattern after its
      first component, and the fallback at its short trailing year. */
  lemma ShortTrailingYearRejected(f: DateFormat, dayStr: string, word: string, yearStr: string,
                                  sp1: string, sp2: string, rest: string)
    requires f != YearMonthDay
    requires AllDigits(dayStr) && 1 <= |dayStr| <= 2
    requires AllDigits(yearStr) && 1 <= |yearStr| < YearDigits(f)
    requires MonthWord(word) && Whitespace(sp1) && Whitespace(sp2)
    requires rest == [] || !IsDigit(rest[0])
    ensures var s := TextualText(f, dayStr, word, yearStr, sp1, sp2) + rest;
            Match(s, 0, NumericPattern(f)) == None
            && Match(s, 0, TextualPattern(TextualOrder(f), YearDigits(f))) == None
  {
    var caps := InFormatOrder(f, dayStr, word, yearStr);
    var s := TextualText(f, dayStr, word, yearStr, sp1, sp2) + rest;
    assert s == caps[0] + (sp1 + (caps[1] + (sp2 + (caps[2] + rest))));
    var after := sp1 + caps[1] + sp2 + caps[2] + rest;
    assert s == caps[0] + after && after[0] == sp1[0];
    match f
    case DayMonthYear =>
      MatchTripleNoSep(s, DayGroup, Lit('.'), DayGroup, YearGroup(4), caps[0], after);
      MatchTripleShortLast(s, DayGroup, Spaces, MonthWordGroup, YearGroup(4), caps[0], sp1, caps[1], sp2, caps[2], rest);
    case DayMonthShortYear =>
      MatchTripleNoSep(s, DayGroup, Lit('.'), DayGroup, YearGroup(2), caps[0], after);
      MatchTripleShortLast(s, DayGroup, Spaces, MonthWordGroup, YearGroup(2), caps[0], sp1, caps[1], sp2, caps[2], rest);
    case MonthDayYear =>
      assert s[0] == word[0];
      MatchTripleNoStart(s, DayGroup, Lit('/'), DayGroup, YearGroup(4));
      MatchTripleShortLast(s, MonthWordGroup, Spaces, DayGroup, YearGroup(4), caps[0], sp1, caps[1], sp2, caps[2], rest);
  }

  /** The year-width check of the fallback is implied by the pattern: the
      year group always holds exactly the expected number of digits. */
  lemma YearWidthCheckRedundant(order: seq<Part>, width: nat, caps: seq<string>)
    requires ValidOrder(order) && Fits(caps, TextualPattern(order, width))
    ensures |caps| == 3 && |Pick(order, caps, Y)| == width
  {
    TextualCaptures(order, width, caps);
    assert Spans(caps[IndexOf(order, Y)], YearGroup(width));
  }

  /** A name that does not start with a digit has no date under the formats
      whose numeric and textual forms both start with a digit group. */
  lemma NoLeadingDigitNoDate(s: string, f: DateFormat)
    requires f != MonthDayYear
    requires s == [] || !IsDigit(s[0])
    ensures ExtractDate(s, FormatId(f)) == None
  {
    FormatIdRoundTrip(f);
    var order := TextualOrder(f);
    var w := YearDigits(f);
    match f
    case YearMonthDay =>
      MatchTripleNoStart(s, YearGroup(4), Lit('-'), DayGroup, DayGroup);
      MatchTripleNoStart(s, PartGroup(order[0], w), Spaces, PartGroup(order[1], w), PartGroup(order[2], w));
    case DayMonthYear =>
      MatchTripleNoStart(s, DayGroup, Lit('.'), DayGroup, YearGroup(4));
      MatchTripleNoStart(s, PartGroup(order[0], w), Spaces, PartGroup(order[1], w), PartGroup(order[2], w));
    case DayMonthShortYear =>
      MatchTripleNoStart(s, DayGroup, Lit('.'), DayGroup, YearGroup(2));
      MatchTripleNoStart(s, PartGroup(order[0], w), Spaces, PartGroup(order[1], w), PartGroup(order[2], w));
  }

  // ---------------------------------------------------------------------
  // The sorter's unit tests

  lemma IsoExampleText()
    ensures NumericText(YearMonthDay, 15, 1, 2024) + " note" == "2024-01-15 note"
  {
    Year2024();
  }

  /** `2023` and `2024` written with four digits. */
  lemma Year2023()
    ensures Padded(2023, 4) == "2023"
  {
  }

  lemma Year2024()
    ensures Padded(2024, 4) == "2024"
  {
  }

  /** `2024-01-15 note` under `YYYY-MM-DD`. */
  lemma IsoExample()
    ensures ExtractDate("2024-01-15 note", "YYYY-MM-DD") == Some(Date(15, 1, 2024))
  {
    IsoExampleText();
    NumericRoundTrip(YearMonthDay, 15, 1, 2024, " note");
  }

  lemma DottedExampleText()
    ensures NumericText(DayMonthYear, 15, 1, 2024) + " tasks" == "15.01.2024 tasks"
  {
    Year2024();
  }

  /** `15.01.2024 tasks` under `DD.MM.YYYY`. */
  lemma DottedExample()
    ensures ExtractDate("15.01.2024 tasks", "DD.MM.YYYY") == Some(Date(15, 1, 2024))
  {
    DottedExampleText();
    NumericRoundTrip(DayMonthYear, 15, 1, 2024, " tasks");
  }

  lemma ShortYearExampleText()
    ensures NumericText(DayMonthShortYear, 5, 2, 24) + " todo" == "05.02.24 todo"
  {
  }

  /** `05.02.24 todo` under `DD.MM.YY`: 24 is below 50, so 2024. */
  lemma ShortYearExample()
    ensures ExtractDate("05.02.24 todo", "DD.MM.YY") == Some(Date(5, 2, 2024))
  {
    ShortYearExampleText();
    NumericRoundTrip(DayMonthShortYear, 5, 2, 24, " todo");
  }

  lemma LastCenturyExampleText()
    ensures NumericText(DayMonthShortYear, 31, 12, 67) + "" == "31.12.67"
  {
  }

  /** `31.12.67` under `DD.MM.YY`: 67 is 50 or more, so 1967. */
  lemma LastCenturyExample()
    ensures ExtractDate("31.12.67", "DD.MM.YY") == Some(Date(31, 12, 1967))
  {
    LastCenturyExampleText();
    NumericRoundTrip(DayMonthShortYear, 31, 12, 67, "");
  }

  lemma UncheckedBoundsExampleText()
    ensures NumericText(YearMonthDay, 45, 13, 2024) + "" == "2024-13-45"
  {
    Year2024();
  }

  /** The numeric path checks no bounds: month 13 and day 45 are kept. */
  lemma UncheckedBoundsExample()
    ensures ExtractDate("2024-13-45", "YYYY-MM-DD") == Some(Date(45, 13, 2024))
  {
    UncheckedBoundsExampleText();
    NumericRoundTrip(YearMonthDay, 45, 13, 2024, "");
  }

  lemma PrefixMatchExampleText()
    ensures NumericText(DayMonthShortYear, 15, 1, 20) + "24" == "15.01.2024"
  {
  }

  /** Matching is on a prefix: `15.01.2024` under `DD.MM.YY` reads the year as `20`. */
  lemma PrefixMatchExample()
    ensures ExtractDate("15.01.2024", "DD.MM.YY") == Some(Date(15, 1, 2020))
  {
    PrefixMatchExampleText();
    NumericRoundTrip(DayMonthShortYear, 15, 1, 20, "24");
  }

  lemma UnpaddedExampleText()
    ensures DigitText(YearMonthDay, "5", "1", "2024") + "" == "2024-1-5"
  {
  }

  /** `2024-1-5`: the day and month groups also take a single digit. */
  lemma UnpaddedExample()
    ensures ExtractDate("2024-1-5", "YYYY-MM-DD") == Some(Date(5, 1, 2024))
  {
    UnpaddedExampleText();
    DigitTextRoundTrip(YearMonthDay, "5", "1", "2024", "");
    UnpaddedValues();
  }

  lemma UnpaddedValues()
    ensures DigitsValue("5") == 5 && DigitsValue("1") == 1 && DigitsValue("2024") == 2024
  {
    DigitValues();
    assert "5"[..0] == "" && "1"[..0] == "";
  }

  lemma DigitValues()
    ensures DigitsValue("9") == 9 && DigitsValue("15") == 15 && DigitsValue("32") == 32
    ensures DigitsValue("20") == 20 && DigitsValue("24") == 24 && DigitsValue("2024") == 2024
  {
    assert "15"[..1] == "1" && "32"[..1] == "3" && "20"[..1] == "2" && "24"[..1] == "2";
    assert "9"[..0] == "" && "1"[..0] == "" && "3"[..0] == "" && "2"[..0] == "";
    assert "2024"[..3] == "202" && "202"[..2] == "20";
  }

  lemma TextualIsoExampleText()
    ensures TextualText(YearMonthDay, "9", "Sept.", "2024", " ", " ") + " notes" == "2024 Sept. 9 notes"
  {
  }

  /** `2024 Sept. 9 notes` under `YYYY-MM-DD` falls back to year, month word, day. */
  lemma TextualIsoExample()
    ensures ExtractDate("2024 Sept. 9 notes", "YYYY-MM-DD") == Some(Date(9, 9, 2024))
  {
    TextualIsoExampleText();
    DigitValues();
    MonthExamples();
    TextualFallback(YearMonthDay, "9", "Sept.", "2024", " ", " ", " notes");
  }

  lemma TextualDottedExampleText()
    ensures TextualText(DayMonthYear, "15", "Aug", "2024", " ", " ") + "" == "15 Aug 2024"
  {
  }

  /** `15 Aug 2024` under `DD.MM.YYYY`. */
  lemma TextualDottedExample()
    ensures ExtractDate("15 Aug 2024", "DD.MM.YYYY") == Some(Date(15, 8, 2024))
  {
    TextualDottedExampleText();
    DigitValues();
    MonthExamples();
    TextualFallback(DayMonthYear, "15", "Aug", "2024", " ", " ", "");
  }

  lemma TextualShortYearExampleText()
    ensures TextualText(DayMonthShortYear, "15", "Aug", "24", " ", " ") + "" == "15 Aug 24"
  {
  }

  /** `15 Aug 24` under `DD.MM.YY`. */
  lemma TextualShortYearExample()
    ensures ExtractDate("15 Aug 24", "DD.MM.YY") == Some(Date(15, 8, 2024))
  {
    TextualShortYearExampleText();
    DigitValues();
    MonthExamples();
    TextualFallback(DayMonthShortYear, "15", "Aug", "24", " ", " ", "");
  }

  lemma TextualSlashExampleText()
    ensures TextualText(MonthDayYear, "15", "Aug", "2024", " ", " ") + " report" == "Aug 15 2024 report"
  {
  }

  /** `Aug 15 2024 report` under `MM/DD/YYYY` falls back to month word, day, year. */
  lemma TextualSlashExample()
    ensures ExtractDate("Aug 15 2024 report", "MM/DD/YYYY") == Some(Date(15, 8, 2024))
  {
    TextualSlashExampleText();
    DigitValues();
    MonthExamples();
    TextualFallback(MonthDayYear, "15", "Aug", "2024", " ", " ", " report");
  }

  lemma DayOutOfRangeExampleText()
    ensures TextualText(DayMonthYear, "32", "Jan", "2024", " ", " ") + "" == "32 Jan 2024"
  {
  }

  /** `32 Jan 2024` under `DD.MM.YYYY`: a day past 31 is rejected. */
  lemma DayOutOfRangeExample()
    ensures ExtractDate("32 Jan 2024", "DD.MM.YYYY") == None
  {
    DayOutOfRangeExampleText();
    DigitValues();
    MonthExamples();
    TextualFallback(DayMonthYear, "32", "Jan", "2024", " ", " ", "");
  }

  lemma TwoDigitYearRejectedExampleText()
    ensures TextualText(DayMonthYear, "15", "Aug", "24", " ", " ") + "" == "15 Aug 24"
  {
  }

  /** `15 Aug 24` under `DD.MM.YYYY`: two year digits where four are expected. */
  lemma TwoDigitYearRejectedExample()
    ensures ExtractDate("15 Aug 24", "DD.MM.YYYY") == None
  {
    TwoDigitYearRejectedExampleText();
    DigitValues();
    MonthExamples();
    ShortYearRejected(DayMonthYear, "15", "Aug", "24", " ", " ", "");
  }

  lemma TextualPrefixExampleText()
    ensures TextualText(DayMonthShortYear, "15", "Aug", "20", " ", " ") + "24" == "15 Aug 2024"
  {
  }

  /** `15 Aug 2024` under `DD.MM.YY`: the year group takes `20` and the rest is ignored. */
  lemma TextualPrefixExample()
    ensures ExtractDate("15 Aug 2024", "DD.MM.YY") == Some(Date(15, 8, 2020))
  {
    TextualPrefixExampleText();
    DigitValues();
    MonthExamples();
    TextualFallback(DayMonthShortYear, "15", "Aug", "20", " ", " ", "24");
  }

  // ---------------------------------------------------------------------
  // The month lookup as written: an object literal indexed by the token

  /** What `months[token]` yields on a plain object literal: one of its own
      entries, `Object` itself for the key `constructor` that every object
      inherits, or `undefined`. The other inherited names contain upper-case
      letters or underscores, so no lower-cased month word reaches them. */
  datatype JsValue = Undefined | Number(n: int) | ObjectConstructor

  function MonthLookupAsWritten(token: string): (r: JsValue)
    ensures r == ObjectConstructor <==> MonthKey(token) == "constructor"
    ensures r.Number? <==> MonthNumber(token).Some?
    ensures r.Number? ==> r.n == MonthNumber(token).value
  {
    var key := MonthKey(token);
    if key in MonthTable then Number(MonthTable[key])
    else if key == "constructor" then ObjectConstructor
    else Undefined
  }

  /** A `Data` as the source can build it, with `None` standing for a month
      that `Number(...)` turned into NaN. */
  datatype RawDate = RawDate(day: int, month: Option<int>, year: int)

  /** The checks after the textual match as written: `Object` is truthy,
      and comparisons against it are false, so it passes both month checks
      and becomes a NaN month. */
  function FromComponentsAsWritten(dayStr: string, monthStr: string, yearStr: string, width: nat): Option<RawDate>
    requires AllDigits(dayStr) && AllDigits(yearStr) && (width == 2 || width == 4)
  {
    var monthNum := MonthLookupAsWritten(monthStr);
    if monthNum.Undefined? || (monthNum.Number? && monthNum.n == 0) then None
    else if (width == 4 && |yearStr| != 4) || (width == 2 && |yearStr| != 2) then None
    else
      var yearNum := if |yearStr| == 2 then ExpandYear(DigitsValue(yearStr)) else DigitsValue(yearStr);
      var dayNum := DigitsValue(dayStr);
      if dayNum < 1 || dayNum > 31 then None
      else if monthNum.Number? && (monthNum.n < 1 || monthNum.n > 12) then None
      else Some(RawDate(dayNum, if monthNum.Number? then Some(monthNum.n) else None, yearNum))
  }

  /** For every month word other than `constructor`, the lookup as written
      and the table lookup of the model give the same outcome. */
  lemma AsWrittenAgrees(dayStr: string, monthStr: string, yearStr: string, width: nat)
    requires AllDigits(dayStr) && AllDigits(yearStr) && (width == 2 || width == 4)
    requires MonthKey(monthStr) != "constructor"
    ensures FromComponentsAsWritten(dayStr, monthStr, yearStr, width)
            == match FromComponents(dayStr, monthStr, yearStr, width)
               case None => None
               case Some(d) => Some(RawDate(d.day, Some(d.month), d.year))
  {
  }

  lemma ConstructorText()
    ensures TextualText(YearMonthDay, "9", "constructor", "2024", " ", " ") + "" == "2024 constructor 9"
    ensures MonthKey("constructor") == "constructor"
  {
    assert Lower("constructor") == "constructor";
  }

  /** `2024 constructor 9` under `YYYY-MM-DD`: the numeric pattern fails and
      the fallback captures `constructor` as the month word. */
  lemma ConstructorMatches()
    ensures Match("2024 constructor 9", 0, NumericPattern(YearMonthDay)) == None
    ensures Match("2024 constructor 9", 0, TextualPattern([Y, M, D], 4)) == Some(["2024", "constructor", "9"])
  {
    ConstructorText();
    TextualTextNotNumeric(YearMonthDay, "9", "constructor", "2024", " ", " ", "");
    TextualTextMatches(YearMonthDay, "9", "constructor", "2024", " ", " ", "");
  }

  /** As written, those captures give a date whose month is NaN. */
  lemma ConstructorAsWritten()
    ensures FromComponentsAsWritten("9", "constructor", "2024", 4) == Some(RawDate(9, None, 2024))
  {
    ConstructorText();
    DigitValues();
  }

  /** In the model the token is not a month. */
  lemma ConstructorNotMonth()
    ensures MonthNumber("constructor") == None
  {
    ConstructorText();
  }

  /** In the model `2024 constructor 9` has no date. */
  lemma ConstructorRejected()
    ensures ExtractDate("2024 constructor 9", "YYYY-MM-DD") == None
  {
    ConstructorText();
    ConstructorNotMonth();
    TextualFallback(YearMonthDay, "9", "constructor", "2024", " ", " ", "");
  }
}
