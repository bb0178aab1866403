# Daily notes sorter: a verified model

This project models the core of an Obsidian plugin that orders the notes of
configured folders in the file explorer by the date written at the start of
each note's name.

- `Sorter.extractDate` reads a `{day, month, year}` from the start of a
  base name. It handles four format identifiers: `YYYY-MM-DD`,
  `DD.MM.YYYY`, `DD.MM.YY` and `MM/DD/YYYY`. The numeric regular
  expression of the format is tried first. When it fails, a textual
  fallback is tried: three components separated by runs of whitespace,
  one of them an English month word, in the format's component order
  (`mapTextMonthToNumber`, `parseTextualDate`).
- `Sorter.sortFolder` splits the files of a folder into dated and undated
  ones, builds a notice about the undated ones, and sorts the dated group
  chronologically, oldest first when ascending and newest first when
  descending; files with equal dates keep folder order. The undated group
  is sorted by name. The dated group goes first when ascending and last when
  descending. The result is the file-explorer entries of the files, in that
  order.
- `FileExplorerUtils` finds the folder setting that applies to a path,
  with or without a leading `/`. It also keeps the sort direction that
  settings restore.

Modules, one file each:

| file | module | contents |
|---|---|---|
| `wrappers.dfy` | `Wrappers` | `Option` |
| `text.dfy` | `Text` | digit strings, `parseInt`/`Number` on them, `String(n)`, zero padding, `join`, `includes` |
| `regex.dfy` | `Regex` | the regular-expression fragment the date patterns use. `Match` takes each greedy run once. `Backtrack` is the ECMAScript reference semantics. A lemma proves that they agree |
| `date_extractor.dfy` | `DateExtractor` | `Data`, the month table, the patterns, `parseTextualDate` (a function and the method with its `forEach` loop), `extractDate` |
| `date_extractor_props.dfy` | `DateExtractorProperties` | round trips through every format, rejection conditions, the unit-test examples, the finding below |
| `sorting.dfy` | `Sorting` | a stable sort by a comparator (`Array.prototype.sort`) with permutation, order and stability lemmas |
| `folder_sorter.dfy` | `FolderSorter` | `SortingItem`, the partition, the comparators, the arrangement, the projection, the notice text, the `SortFolder` method |
| `folder_sorter_props.dfy` | `FolderSorterProperties` | what the arrangement guarantees: permutation, group order, chronological and name order, folder order among ties, no lost files, notice contents |
| `folder_sorter_examples.dfy` | `FolderSorterExamples` | the two `/Daily` folders of the sorter's unit tests |
| `file_explorer.dfy` | `FileExplorer` | path normalisation, the folder-setting lookup, class `FileExplorerUtils` |

Where the code and its comments disagree, the model follows the code. The
one place where the model departs from the code is the month word
`constructor`, described under "## Findings" and "## Left out".
`mapTextMonthToNumber` is documented as accepting English and Russian month
names, but its table holds English names only. So the model has no Russian
months, and `DateExtractorProperties.CyrillicNeverNamesMonth` proves that a
Cyrillic letter never makes a month word, even though the pattern admits
Cyrillic letters.

## Model

| member | source | states |
|---|---|---|
| `DateExtractor.ParseFormat` | src/core/sorter.ts:168-226 | the `switch` selects a case exactly for the four format identifiers, and the case it selects has that identifier |
| `DateExtractorProperties.FormatIdRoundTrip` | src/core/sorter.ts:168-226 | every format's identifier selects that format's case |
| `DateExtractor.MonthNumber` | src/core/sorter.ts:38-68 | a token names a month exactly when its lower-cased form, with one final full stop removed, is a key of the table; the month is within 1..12 |
| `DateExtractor.MonthTable` | src/core/sorter.ts:40-66 | the 24 English names and abbreviations with their month numbers, and no other key; `DateExtractorProperties.TableKeyIsAsciiLower`, `DateExtractorProperties.CyrillicNeverNamesMonth` and `DateExtractorProperties.MonthExamples` describe it |
| `DateExtractor.Lower` | src/core/sorter.ts:39 | `toLowerCase` keeps the length and lower-cases each character of the month-word class |
| `DateExtractor.LowerChar` | src/core/sorter.ts:39 | one character of `toLowerCase`: a character of the month-word class stays in it, and an ASCII character stays ASCII while a non-ASCII one stays non-ASCII; `DateExtractorProperties.MonthCaseInsensitive` shows the lookup ignores case |
| `DateExtractor.StripTrailingDot` | src/core/sorter.ts:39 | `replace(/\.$/, '')` drops exactly one final full stop, and only when there is one |
| `DateExtractorProperties.TableKeyIsAsciiLower` | src/core/sorter.ts:40-66 | every table key is made of lower-case ASCII letters |
| `DateExtractorProperties.MonthCaseInsensitive` | src/core/sorter.ts:39 | the lookup ignores letter case |
| `DateExtractorProperties.OneTrailingDot` | src/core/sorter.ts:39 | adding a full stop to a token without one changes nothing, and adding one to a token that ends in one makes it unknown |
| `DateExtractorProperties.OnlyAsciiTokens` | src/core/sorter.ts:38-68 | only ASCII letters, optionally followed by one final full stop, can name a month |
| `DateExtractorProperties.CyrillicNeverNamesMonth` | src/core/sorter.ts:40-67 | no token that holds a Cyrillic letter names a month |
| `DateExtractorProperties.MonthExamples` | src/core/sorter.ts:40-67 | `sept`, `Sept.`, `SEPTEMBER`, `Aug` and `Jan` map to 9, 9, 9, 8 and 1 |
| `DateExtractorProperties.RussianMonthExample` | src/core/sorter.ts:40-67 | `сентябрь` is not a month |
| `DateExtractor.TextualOrder` | src/core/sorter.ts:178-220 | in the four `parseTextualDate` calls (lines 178, 191, 207, 220), each format's fallback order is a permutation of year, month and day |
| `DateExtractor.YearDigits` | src/core/sorter.ts:178-220 | in the four `parseTextualDate` calls (lines 178, 191, 207, 220), the fallback expects a 2-digit year for `DD.MM.YY` and a 4-digit year otherwise |
| `DateExtractor.NumericPatternShape` | src/core/sorter.ts:171 | each numeric pattern separates its groups with a literal outside the group classes |
| `DateExtractor.TextualPatternShape` | src/core/sorter.ts:98 | the textual pattern separates its groups with whitespace, which no group class admits |
| `DateExtractor.NumericPattern` | src/core/sorter.ts:171-213 | the four numeric regular expressions as pieces: a 4-digit or 1–2-digit group, a `-`, `.` or `/` literal, two more groups, with a 2-digit year for `DD.MM.YY`; `DateExtractor.NumericPatternShape`, `DateExtractor.NumericCaptures` and `DateExtractor.NumericMatchIsBacktrack` describe it |
| `DateExtractor.TextualPattern` | src/core/sorter.ts:87-98 | `^${parts[0]}\s+${parts[1]}\s+${parts[2]}` with the year, month-word and day groups in the given order; `DateExtractor.TextualPatternShape`, `DateExtractor.TextualCaptures` and `DateExtractor.TextualMatchIsBacktrack` describe it |
| `DateExtractor.NumericMatchIsBacktrack` | src/core/sorter.ts:171-213 | on every name and for every format, the greedy matcher finds exactly what backtracking regular-expression matching finds for the numeric pattern |
| `DateExtractor.TextualMatchIsBacktrack` | src/core/sorter.ts:98-100 | on every name, for every component order and year width, the greedy matcher finds exactly what backtracking matching finds for the textual pattern |
| `DateExtractor.NumericCaptures` | src/core/sorter.ts:171 | a numeric match captures three digit strings with the widths of the format's groups |
| `DateExtractor.TextualCaptures` | src/core/sorter.ts:87-98 | a textual match captures three strings, each consumable by the group of its component |
| `Regex.Match` | src/core/sorter.ts:98 | a match yields one capture per group of the pattern, and each capture is a string that group may consume |
| `Regex.MatchIsBacktrack` | src/core/sorter.ts:98 | on patterns whose repetitions are followed by something outside their own class, taking each greedy run once gives exactly what backtracking gives |
| `Regex.RunMaximal` | src/core/sorter.ts:87-89 | every character of the run found is in the class, and the character after it, if any, is not: the run is the longest at the position |
| `Regex.ClassesDisjoint` | src/core/sorter.ts:87-98 | `\d`, `\s` and the month-word class share no character |
| `Regex.MatchTripleSome` | src/core/sorter.ts:98 | a name made of three group strings separated by separator strings, with no class character of the last group right after it, matches the three-group pattern with those captures |
| `Regex.MatchTripleNoStart` | src/core/sorter.ts:98 | a name whose first character cannot begin the first group does not match |
| `Regex.MatchTripleShortLast` | src/core/sorter.ts:98 | a last group of fixed width followed by too few class characters does not match |
| `Regex.MatchTripleShortFirst` | src/core/sorter.ts:98 | a first group that needs more characters than the run of its class at the start does not match |
| `Text.DigitsValue` | src/core/sorter.ts:143 | the value of a digit string is less than 10 to the power of its length |
| `Text.DigitsValueAppend` | src/core/sorter.ts:204 | the value of a concatenation is the value of the first part shifted by the length of the second, plus the value of the second |
| `Text.Digits` | src/core/sorter.ts:276 | `String(n)` is a non-empty digit string with no leading zero (its first digit is `0` only for `n == 0`), one digit long exactly when `n < 10`; with `Text.DigitsRoundTrip` it is the unique canonical decimal of `n` |
| `Text.DigitsRoundTrip` | src/core/sorter.ts:276 | reading back `String(n)` gives `n` |
| `Text.Padded` | src/core/sorter.ts:171 | zero padding gives a digit string of exactly the width |
| `Text.PaddedRoundTrip` | src/core/sorter.ts:171 | reading back a zero-padded number gives the number |
| `Text.JoinContains` | src/core/sorter.ts:270-273 | every part occurs in the joined text |
| `Text.ContainsWithin` | src/core/sorter.ts:276 | what occurs in a part occurs in any text around it |
| `DateExtractor.NumericDate` | src/core/sorter.ts:172-229 | day and month are within 0..99; `DateExtractorProperties.DigitGroupsDate` gives the values for every match, in the format's order |
| `DateExtractorProperties.CenturyPrefixIsExpandYear` | src/core/sorter.ts:201-204 | prefixing `20` below 50 and `19` otherwise gives the same year as the fallback's arithmetic expansion |
| `DateExtractor.ExpandYear` | src/core/sorter.ts:143-146 | two-digit years expand into 1950..2049 and keep their last two digits, so 49 gives 2049 and 50 gives 1950; `DateExtractorProperties.CenturyPrefixIsExpandYear` shows the `DD.MM.YY` string prefix agrees |
| `DateExtractorProperties.NumericRoundTrip` | src/core/sorter.ts:164-229 | a name that starts with a zero-padded date in a format's numeric form gives that date back, whatever follows; `DD.MM.YY` expands the year, and day and month bounds are not checked |
| `DateExtractorProperties.DigitTextMatches` | src/core/sorter.ts:171-213 | a numeric form with a day and month of one or two digits and a year of the group width is matched with exactly those groups, in the format's order |
| `DateExtractorProperties.DigitGroupsDate` | src/core/sorter.ts:172-204 | those groups read back as the numbers they spell, with the `DD.MM.YY` century rule |
| `DateExtractorProperties.DigitTextRoundTrip` | src/core/sorter.ts:164-229 | a name that starts with a numeric form, with or without leading zeros in day and month, gives back the numbers written, whatever follows; `DD.MM.YY` expands the year, and day and month bounds are not checked |
| `DateExtractor.FromComponents` | src/core/sorter.ts:129-157 | a date from the fallback has a day within 1..31, a month within 1..12 and a year of the expected width |
| `DateExtractorProperties.FromComponentsMeaning` | src/core/sorter.ts:129-157 | the checks after the fallback match give a date exactly when the month word is known, the year has the expected width and the day is within 1..31 |
| `DateExtractor.TextualDate` | src/core/sorter.ts:82-158 | a textual date has its day within 1..31 and its month within 1..12 |
| `DateExtractor.ParseTextualDate` | src/core/sorter.ts:82-158 | the `forEach` over the order assigns each group to the component at its position, which is what `TextualDate` computes |
| `DateExtractor.ExtractDate` | src/core/sorter.ts:164-230 | an unknown format gives no date; a date has day and month within 0..99 |
| `DateExtractorProperties.TextualTextMatches` | src/core/sorter.ts:98-100 | a name in a format's textual form matches the fallback pattern with its three components |
| `DateExtractorProperties.TextualTextNotNumeric` | src/core/sorter.ts:171-213 | a name in the textual form never matches the numeric pattern of its format |
| `DateExtractorProperties.TextualFallback` | src/core/sorter.ts:164-230 | for a name in the textual form of its format, `extractDate` gives the date exactly when the month word is known and the day is within 1..31 |
| `DateExtractorProperties.ShortYearRejected` | src/core/sorter.ts:164-223 | in every format, a name in the textual form whose year has fewer digits than the format's year group gives no date |
| `DateExtractorProperties.ShortLeadingYearRejected` | src/core/sorter.ts:171-181 | under `YYYY-MM-DD`, a leading year of one to three digits fails both the numeric and the textual pattern |
| `DateExtractorProperties.ShortTrailingYearRejected` | src/core/sorter.ts:182-223 | under the other three formats, the textual form fails the numeric pattern, and a short trailing year fails the fallback |
| `DateExtractorProperties.YearWidthCheckRedundant` | src/core/sorter.ts:135-140 | the year group always holds exactly the expected number of digits, so the width check never rejects anything |
| `DateExtractorProperties.NoLeadingDigitNoDate` | src/core/sorter.ts:169-210 | under the three formats other than `MM/DD/YYYY`, a name that does not start with a digit has no date |
| `DateExtractorProperties.IsoExample` | tests/sorter.test.ts:13-17 | `2024-01-15 note` under `YYYY-MM-DD` is 15/1/2024 |
| `DateExtractorProperties.TextualIsoExample` | tests/sorter.test.ts:19-22 | `2024 Sept. 9 notes` is 9/9/2024 |
| `DateExtractorProperties.DottedExample` | tests/sorter.test.ts:24-27 | `15.01.2024 tasks` under `DD.MM.YYYY` is 15/1/2024 |
| `DateExtractorProperties.TextualDottedExample` | tests/sorter.test.ts:29-32 | `15 Aug 2024` under `DD.MM.YYYY` is 15/8/2024 |
| `DateExtractorProperties.ShortYearExample` | tests/sorter.test.ts:34-37 | `05.02.24 todo` under `DD.MM.YY` is 5/2/2024 |
| `DateExtractorProperties.LastCenturyExample` | tests/sorter.test.ts:39-42 | `31.12.67` under `DD.MM.YY` is 31/12/1967 |
| `DateExtractorProperties.TextualShortYearExample` | tests/sorter.test.ts:44-47 | `15 Aug 24` under `DD.MM.YY` is 15/8/2024 |
| `DateExtractorProperties.TextualSlashExample` | tests/sorter.test.ts:49-52 | `Aug 15 2024 report` under `MM/DD/YYYY` is 15/8/2024 |
| `DateExtractorProperties.DayOutOfRangeExample` | tests/sorter.test.ts:54-56 | `32 Jan 2024` under `DD.MM.YYYY` has no date |
| `DateExtractorProperties.TwoDigitYearRejectedExample` | tests/sorter.test.ts:58-61 | `15 Aug 24` under `DD.MM.YYYY` has no date |
| `DateExtractorProperties.UncheckedBoundsExample` | src/core/sorter.ts:171-181 | `2024-13-45` is accepted as day 45 of month 13, because the numeric path checks no bounds |
| `DateExtractorProperties.PrefixMatchExample` | src/core/sorter.ts:197 | `15.01.2024` under `DD.MM.YY` is 15/1/2020, because the pattern has no end anchor |
| `DateExtractorProperties.UnpaddedExample` | src/core/sorter.ts:171-175 | `2024-1-5` under `YYYY-MM-DD` is 5/1/2024: the `\d{1,2}` groups take single digits |
| `DateExtractorProperties.TextualPrefixExample` | src/core/sorter.ts:98 | `15 Aug 2024` under `DD.MM.YY` is 15/8/2020, for the same reason |
| `DateExtractorProperties.MonthLookupAsWritten` | src/core/sorter.ts:40-67 | indexing the object literal gives the table's number for table keys, `Object` exactly for `constructor`, and `undefined` otherwise |
| `DateExtractorProperties.AsWrittenAgrees` | src/core/sorter.ts:129-157 | for every month word other than `constructor`, the lookup as written and the model's lookup lead to the same outcome |
| `DateExtractorProperties.ConstructorMatches` | src/core/sorter.ts:171-178 | `2024 constructor 9` fails the numeric pattern and matches the fallback with `constructor` as the month word |
| `DateExtractorProperties.ConstructorAsWritten` | src/core/sorter.ts:129-157 | as written, that name yields a date whose month is NaN |
| `DateExtractorProperties.FromComponentsAsWritten` | src/core/sorter.ts:129-157 | the checks of the fallback with the object-literal lookup as written, under which `constructor` passes with a NaN month; `DateExtractorProperties.AsWrittenAgrees` and `DateExtractorProperties.ConstructorAsWritten` describe it |
| `DateExtractorProperties.ConstructorRejected` | src/core/sorter.ts:129-132 | in the corrected model, that name has no date |
| `Sorting.InsertBefore` | src/core/sorter.ts:283-298 | inserting adds exactly the element: the result is a permutation of the input plus that element |
| `Sorting.SortBy` | src/core/sorter.ts:283-304 | sorting permutes its input |
| `Sorting.SortBySorted` | src/core/sorter.ts:283-304 | for a comparator that is a total preorder on the elements, the result is ordered |
| `Sorting.SortByStable` | src/core/sorter.ts:283-304 | elements the comparator ranks equal keep their input order |
| `Sorting.Filter` | src/core/sorter.ts:283-304 | the selection the stability lemmas of the two sorts compare: every element of the input that satisfies the predicate is kept, no other, and none is added (the result is a sub-multiset of the input) |
| `Sorting.FilterAppend` | src/core/sorter.ts:307-314 | filtering distributes over concatenation |
| `Sorting.FilterNone` | src/core/sorter.ts:307-314 | nothing is kept when no element qualifies |
| `Sorting.TiedWithFilter` | src/core/sorter.ts:283-304 | the elements ranked equal to `y` are those of any predicate that agrees with the ranking |
| `FolderSorter.Items` | src/core/sorter.ts:253-259 | there is at most one item per child |
| `FolderSorter.ItemsCount` | src/core/sorter.ts:253-256 | there is exactly one item per file child |
| `FolderSorter.Dated` | src/core/sorter.ts:261-262 | every dated item has a date |
| `FolderSorter.Undated` | src/core/sorter.ts:263-264 | no undated item has a date |
| `FolderSorter.PartitionPermutation` | src/core/sorter.ts:257-266 | the two groups together are a permutation of the items |
| `FolderSorterProperties.DatedMembers` | src/core/sorter.ts:261-262 | an item is in the dated group exactly when it is an item with a date |
| `FolderSorterProperties.UndatedMembers` | src/core/sorter.ts:263-264 | an item is in the undated group exactly when it is an item without a date |
| `FolderSorterProperties.GroupSizes` | src/core/sorter.ts:257-266 | the sizes of the two groups add up to the number of items |
| `FolderSorter.DateCompare` | src/core/sorter.ts:288-297 | the comparator says "not after" exactly for dates in chronological order (reversed when descending), and "equal" exactly for equal dates |
| `FolderSorter.NameCompare` | src/core/sorter.ts:303 | the name comparison returns -1, 0 or 1 |
| `FolderSorter.NameCompareZero` | src/core/sorter.ts:303 | names compare equal exactly when they are the same |
| `FolderSorter.NameCompareAntisymmetric` | src/core/sorter.ts:303 | swapping the names negates the comparison |
| `FolderSorter.NameCompareTransitive` | src/core/sorter.ts:303 | the comparison is transitive |
| `FolderSorter.DatedLeqTotalPreorder` | src/core/sorter.ts:283-298 | the date comparator is a total preorder on dated items in both directions |
| `FolderSorter.NameLeqTotalPreorder` | src/core/sorter.ts:302-304 | the name comparator is a total preorder |
| `FolderSorter.DatedLeq` | src/core/sorter.ts:283-298 | "a not after b" for two dated items under the date comparator; `FolderSorter.DatedLeqTotalPreorder` and `FolderSorterProperties.DatedTied` describe it |
| `FolderSorter.NameLeq` | src/core/sorter.ts:302-304 | "a not after b" under the name comparator; `FolderSorter.NameLeqTotalPreorder` and `FolderSorterProperties.NamesTied` describe it |
| `FolderSorter.SortFolder` | src/core/sorter.ts:241-322 | the loop partitions the file children in folder order. The result is the projection of the arrangement (dated group chronologically, undated group by name, in the direction's order). A notice is produced exactly when there are undated files and an app, and its text is built from the undated group in folder order |
| `FolderSorterProperties.ArrangePermutation` | src/core/sorter.ts:307-314 | the arrangement is a permutation of the items |
| `FolderSorterProperties.DatedGroupSorted` | src/core/sorter.ts:282-299 | the sorted dated group is chronological, with the newest first when descending |
| `FolderSorterProperties.UndatedGroupSorted` | src/core/sorter.ts:302-304 | the sorted undated group has no dates and is in name order |
| `FolderSorterProperties.ArrangeAscending` | src/core/sorter.ts:308-310 | ascending, the dated items come first and oldest first, then the undated items by name |
| `FolderSorter.Arrange` | src/core/sorter.ts:307-314 | the sorted dated group followed by the sorted undated group when ascending, the reverse concatenation when descending; `FolderSorterProperties.ArrangePermutation`, `FolderSorterProperties.ArrangeAscending` and `FolderSorterProperties.ArrangeDescending` describe it |
| `FolderSorterProperties.ArrangeDescending` | src/core/sorter.ts:311-313 | descending, the undated items come first by name, then the dated items newest first |
| `FolderSorterProperties.SortedDatedMember` | src/core/sorter.ts:282-299 | every element of the sorted dated group is a dated item of the folder |
| `FolderSorterProperties.SortedUndatedMember` | src/core/sorter.ts:302-304 | every element of the sorted undated group is an undated item of the folder |
| `FolderSorterProperties.DatedTied` | src/core/sorter.ts:288-297 | two dated items are ranked equal exactly when their dates are equal |
| `FolderSorterProperties.NamesTied` | src/core/sorter.ts:303 | two items are ranked equal by name exactly when their names are equal |
| `FolderSorterProperties.DatedGroupStable` | src/core/sorter.ts:282-299 | sorting the dated group keeps the folder order of items with the same date |
| `FolderSorterProperties.UndatedGroupStable` | src/core/sorter.ts:302-304 | sorting the undated group keeps the folder order of items with the same name |
| `FolderSorterProperties.SameDateKeepsFolderOrder` | src/core/sorter.ts:282-314 | in the arrangement, the items with any given date appear in folder order |
| `FolderSorterProperties.SameNameKeepsFolderOrder` | src/core/sorter.ts:302-314 | in the arrangement, the undated items with any given name appear in folder order |
| `FolderSorter.Project` | src/core/sorter.ts:317-319 | the projection has at most one entry per item |
| `FolderSorter.ProjectAppend` | src/core/sorter.ts:317-319 | projection distributes over concatenation |
| `FolderSorter.ProjectPermutation` | src/core/sorter.ts:317-319 | the same items in any order project to the same entries, each as many times |
| `FolderSorter.ProjectMembers` | src/core/sorter.ts:317-319 | an entry is in the projection exactly when some item's path maps to it |
| `FolderSorter.ProjectKeepsAll` | src/core/sorter.ts:317-319 | when every path is a key, no item is dropped |
| `FolderSorterProperties.ResultPermutation` | src/core/sorter.ts:307-319 | the result holds the same entries as the folder-order projection, each as many times |
| `FolderSorterProperties.ResultAtMostFiles` | src/core/sorter.ts:253-319 | the result has at most one entry per file child |
| `FolderSorterProperties.ResultMembers` | src/core/sorter.ts:307-319 | an entry is in the result exactly when some item's path maps to it |
| `FolderSorterProperties.ResultKeepsEveryFile` | tests/sorter.test.ts:139-166 | when every file has an entry, the result has one entry per file child, for any format and direction |
| `FolderSorter.LeadingNames` | src/core/sorter.ts:270-272 | the notice names the first three undated files (or all of them, if fewer), in order |
| `FolderSorterProperties.NoticeParts` | src/core/sorter.ts:274-276 | the notice is the head, the format, the names and the remainder, in this order |
| `FolderSorter.NoticeMessage` | src/core/sorter.ts:270-276 | the notice text built from the count, the folder path, the format, the first three undated names and the ` and N more` suffix; `FolderSorterProperties.NoticeParts` and the `FolderSorterProperties.NoticeMentions` lemmas describe it |
| `FolderSorterProperties.NoticeMentionsCount` | src/core/sorter.ts:276 | the notice contains `Found <n> file(s) in folder "<path>"` with the number of undated files |
| `FolderSorterProperties.NoticeMentionsFormat` | src/core/sorter.ts:276 | the notice contains `that do not match format <format>` |
| `FolderSorterProperties.NoticeMentionsNames` | src/core/sorter.ts:270-276 | the notice contains the base name of each of the first three undated files |
| `FolderSorterProperties.NoticeMentionsMore` | src/core/sorter.ts:274-275 | with more than three undated files, the notice contains ` and <n - 3> more` |
| `FolderSorterProperties.NoticeOneFile` | tests/sorter.test.ts:124-137 | with one undated file, the notice contains `Found 1 file(s) in folder "<path>"` and `that do not match format <format>` |
| `FolderSorterExamples.AscendingTest` | tests/sorter.test.ts:78-100 | the ascending `/Daily` folder gives `2023-12-31`, `2024-01-01`, `alpha`, `beta` |
| `FolderSorterExamples.DescendingTest` | tests/sorter.test.ts:102-122 | the descending `/Daily` folder gives `alpha`, `beta`, `2024-01-01`, `2023-12-31` |
| `FolderSorterExamples.AscendingItems` | tests/sorter.test.ts:79-85 | the first folder has four items, and the child that is not a file is skipped |
| `FolderSorterExamples.UndatedNames` | tests/sorter.test.ts:81-82 | `beta` and `alpha` have no date |
| `FileExplorer.Normalize` | src/file-explorer-utils.ts:56-57 | the normalised path starts with `/`; a path that has one is unchanged, and any other path gets exactly one `/` in front |
| `FileExplorer.NormalizeIdempotent` | src/file-explorer-utils.ts:56-57 | normalising twice changes nothing |
| `FileExplorer.NormalizeNeverDoublesSlash` | src/file-explorer-utils.ts:56-57 | a normalised path starts with `//` only when the path already did |
| `FileExplorer.PathsMatchIff` | src/file-explorer-utils.ts:55-58 | two paths match exactly when they agree once one leading `/` is dropped from each |
| `FileExplorer.PathsMatchSymmetric` | src/file-explorer-utils.ts:58 | matching does not depend on the side |
| `FileExplorer.PathsMatchExamples` | src/file-explorer-utils.ts:55-58 | `Daily` matches `/Daily`, and `//Daily` does not |
| `FileExplorer.FindFolderItem` | src/file-explorer-utils.ts:54-59 | no result exactly when no item matches; otherwise the result is the first matching item |
| `FileExplorer.FileExplorerUtils.GetFolderSettings` | src/file-explorer-utils.ts:53-60 | no setting exactly when no configured item matches the path; otherwise the first configured item, in list order, that matches, as `find` returns it |
| `FileExplorer.FileExplorerUtils.constructor` | src/file-explorer-utils.ts:17-35 | the settings are kept; the direction is ascending unless the settings carry one, which it then takes |
| `FileExplorer.FileExplorerUtils.UpdateSettings` | src/file-explorer-utils.ts:40-46 | the settings are replaced; the direction takes the new settings' value when they carry one and is otherwise unchanged |
| `FileExplorer.FileExplorerUtils.GetSortDirection` | src/file-explorer-utils.ts:97-99 | returns the current direction and changes nothing |

## Left out

- The notice is not shown. `SortFolder` returns its text as an `Option`. The 5-second display and the `Notice` object belong to the host application.
- `console.warn` for an unknown format is left out. It is output only; the model returns no date, as the source does.
- `Sorter.app` is a boolean parameter of `SortFolder`, "there is an app". The app object itself is never used beyond that test.
- Folder children are modelled as files (path and base name) or anything else. `instanceof TFile` becomes the `File?` test. In the unit tests, a child that is not a file looks like `{ kind: 'folder-like' }`.
- `fileItems` is a map from path to opaque entries. Three things are not modelled: keys bound explicitly to `undefined`, keys inherited from `Object.prototype`, and the entry objects' contents.
- FolderSorter.NameCompare: `localeCompare` is modelled as ordinal comparison by character code. Locale collation (accents, case) is left out because it depends on the host's ICU data.
- FolderSorter.DatedLeq: the comparator's branch for a missing date (src/core/sorter.ts:284-286) is left out. Only dated items reach that comparator, so the branch is dead.
- Sorting.SortBy stands for the engine's sort algorithm. Any stable sort gives the same result for a total preorder, as ECMAScript 2019 requires of `Array.prototype.sort`. The engine's own algorithm and its comparator-call sequence are not modelled.
- DateExtractor.LowerChar: `toLowerCase` is modelled only for ASCII letters and the Cyrillic blocks U+0400..U+042F. Other characters map to themselves. Only characters of the month-word class ever reach the lookup, so this covers every token the pattern captures.
- DateExtractor.MonthNumber: the lookup is the corrected one, in which only the table's own keys name a month. So `ExtractDate` gives no date for a name such as `2024 constructor 9`, and `FolderSorter.SortFolder` treats that file as undated and names it in the notice. The code as written puts it among the dated files with a NaN month. The comparator then returns NaN, which `sort` reads as 0, so that file ties with every file of its year while those files are still ordered among themselves. The comparator is then not consistent, and ECMAScript leaves the resulting order implementation-defined. The file is also not named in the notice. That behaviour is modelled only by `DateExtractorProperties.MonthLookupAsWritten` and `DateExtractorProperties.FromComponentsAsWritten`, and it is not carried into the sort.
- FolderSorter.SortFolder: the defaults `ascending = true` and `dateFormat = 'YYYY-MM-DD'` of `sortFolder` (src/core/sorter.ts:241-245) are not modelled. Both parameters are always passed. Both callers pass both arguments (src/file-explorer-utils.ts:218 and 248).
- Strings are sequences of Unicode scalar values, not UTF-16 code units. The patterns never look at surrogate pairs.
- DateExtractor.Date: `Data` holds JavaScript numbers. The model uses unbounded integers. The components are at most four digits, so no precision is lost.
- In `FileExplorerUtils`, the following are left out because they drive the host's user interface:
  - `setSortDirection`, `applySort` and the `saveSettings` call;
  - `getFileExplorer`, `waitForFileExplorer`, and the monkey-patching of the explorer's `getSortedFolderItems`.

  Only the direction state and the folder-setting lookup are modelled.
- src/main.ts (plugin life cycle, default settings), the settings and autocomplete UI, and the build and release scripts are not part of this model. Its `FolderItem` interface (src/main.ts:39-42) is the `FileExplorer.FolderItem` datatype.

## Findings

| source | as written | input that shows it | evidently intended | confidence | as-written member | corrected member |
|---|---|---|---|---|---|---|
| src/core/sorter.ts:40-67, 129-157 | `months[token]` on an object literal also finds the inherited key `constructor`. It returns `Object`, which is truthy and compares false against the bounds. So the fallback accepts the name and builds a `Data` whose month is NaN | `2024 constructor 9` with format `YYYY-MM-DD` | only the listed month words name a month, so this name has no date | not executed | `DateExtractorProperties.ConstructorAsWritten` | `DateExtractorProperties.ConstructorRejected` |
