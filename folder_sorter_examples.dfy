/**
 * The `/Daily` folders of the sorter's unit tests, under `YYYY-MM-DD`:
 * two dated files, two undated files and, in the first, a child that is
 * not a file. Each file's entry is its own path.
 */
module FolderSorterExamples {
  import opened Wrappers
  import opened Text
  import opened DateExtractor
  import opened DateExtractorProperties
  import opened Sorting
  import opened FolderSorter

  const Old := File("/Daily/2023-12-31.md", "2023-12-31")
  const New := File("/Daily/2024-01-01.md", "2024-01-01")
  const Beta := File("/Daily/beta.md", "beta")
  const Alpha := File("/Daily/alpha.md", "alpha")

  const OldItem := SortingItem(Some(Date(31, 12, 2023)), Old.path, Old.basename)
  const NewItem := SortingItem(Some(Date(1, 1, 2024)), New.path, New.basename)
  const BetaItem := SortingItem(None, Beta.path, Beta.basename)
  const AlphaItem := SortingItem(None, Alpha.path, Alpha.basename)

  const Entries: map<string, string> :=
    map[Old.path := Old.path, New.path := New.path, Beta.path := Beta.path, Alpha.path := Alpha.path]

  lemma OldText()
    ensures NumericText(YearMonthDay, 31, 12, 2023) + "" == "2023-12-31"
  {
    Year2023();
  }

  lemma NewText()
    ensures NumericText(YearMonthDay, 1, 1, 2024) + "" == "2024-01-01"
  {
    Year2024();
  }

  lemma OldDate()
    ensures ExtractDate(Old.basename, "YYYY-MM-DD") == OldItem.data
  {
    OldText();
    NumericRoundTrip(YearMonthDay, 31, 12, 2023, "");
  }

  lemma NewDate()
    ensures ExtractDate(New.basename, "YYYY-MM-DD") == NewItem.data
  {
    NewText();
    NumericRoundTrip(YearMonthDay, 1, 1, 2024, "");
  }

  lemma UndatedNames()
    ensures ExtractDate(Beta.basename, "YYYY-MM-DD") == None
    ensures ExtractDate(Alpha.basename, "YYYY-MM-DD") == None
  {
    NoLeadingDigitNoDate(Beta.basename, YearMonthDay);
    NoLeadingDigitNoDate(Alpha.basename, YearMonthDay);
  }

  lemma ItemsSnoc(children: seq<Child>, c: Child, dateFormat: string)
    ensures Items(children + [c], dateFormat) == Items(children, dateFormat) +
              if c.File? then [SortingItem(ExtractDate(c.basename, dateFormat), c.path, c.basename)] else []
  {
    assert (children + [c])[..|children|] == children;
  }

  lemma ItemsOfFile(children: seq<Child>, c: Child, dateFormat: string, item: SortingItem)
    requires c.File? && item == SortingItem(ExtractDate(c.basename, dateFormat), c.path, c.basename)
    ensures Items(children + [c], dateFormat) == Items(children, dateFormat) + [item]
  {
    ItemsSnoc(children, c, dateFormat);
  }

  /** A file's item: its date, path and base name. */
  predicate ItemOf(c: Child, item: SortingItem, dateFormat: string) {
    c.File? && item == SortingItem(ExtractDate(c.basename, dateFormat), c.path, c.basename)
  }

  lemma ItemsOfFour(c1: Child, c2: Child, c3: Child, c4: Child,
                    i1: SortingItem, i2: SortingItem, i3: SortingItem, i4: SortingItem, dateFormat: string)
    requires ItemOf(c1, i1, dateFormat) && ItemOf(c2, i2, dateFormat)
    requires ItemOf(c3, i3, dateFormat) && ItemOf(c4, i4, dateFormat)
    ensures Items([c1, c2, c3, c4], dateFormat) == [i1, i2, i3, i4]
  {
    var s0: seq<Child> := [];
    var s1 := s0 + [c1];
    var s2 := s1 + [c2];
    var s3 := s2 + [c3];
    var s4 := s3 + [c4];
    ItemsOfFile(s0, c1, dateFormat, i1);
    ItemsOfFile(s1, c2, dateFormat, i2);
    ItemsOfFile(s2, c3, dateFormat, i3);
    ItemsOfFile(s3, c4, dateFormat, i4);
    assert s4 == [c1, c2, c3, c4];
  }

  lemma DailyItems()
    ensures ItemOf(Old, OldItem, "YYYY-MM-DD") && ItemOf(New, NewItem, "YYYY-MM-DD")
    ensures ItemOf(Beta, BetaItem, "YYYY-MM-DD") && ItemOf(Alpha, AlphaItem, "YYYY-MM-DD")
  {
    OldDate();
    NewDate();
    UndatedNames();
  }

  /** The items of the first test's folder, in folder order. */
  lemma AscendingItems()
    ensures Items([Old, New, Beta, Alpha, Other], "YYYY-MM-DD") == [OldItem, NewItem, BetaItem, AlphaItem]
  {
    DailyItems();
    ItemsOfFour(Old, New, Beta, Alpha, OldItem, NewItem, BetaItem, AlphaItem, "YYYY-MM-DD");
    ItemsSnoc([Old, New, Beta, Alpha], Other, "YYYY-MM-DD");
    assert [Old, New, Beta, Alpha] + [Other] == [Old, New, Beta, Alpha, Other];
  }

  lemma GroupsOf(a: SortingItem, b: SortingItem, c: SortingItem, d: SortingItem)
    requires a.data.Some? && b.data.Some? && c.data.None? && d.data.None?
    ensures Dated([a, b, c, d]) == [a, b] && Undated([a, b, c, d]) == [c, d]
  {
    var s0: seq<SortingItem> := [];
    var s1 := s0 + [a];
    var s2 := s1 + [b];
    var s3 := s2 + [c];
    var s4 := s3 + [d];
    PartitionStep(s0, a);
    PartitionStep(s1, b);
    PartitionStep(s2, c);
    PartitionStep(s3, d);
    assert Dated(s4) == [a, b] && Undated(s4) == [c, d];
    assert s4 == [a, b, c, d];
  }

  lemma SortTwo<T>(x: T, y: T, leq: (T, T) -> bool)
    ensures SortBy([x, y], leq) == if leq(x, y) then [x, y] else [y, x]
  {
    assert [x, y][1..] == [y];
    assert SortBy([y], leq) == [y] by {
      assert [y][1..] == [];
    }
    assert [y][1..] == [];
  }

  lemma ProjectFour(a: SortingItem, b: SortingItem, c: SortingItem, d: SortingItem)
    requires a.path in Entries && b.path in Entries && c.path in Entries && d.path in Entries
    ensures Project([a, b, c, d], Entries) == [Entries[a.path], Entries[b.path], Entries[c.path], Entries[d.path]]
  {
    ProjectAppend([a, b], [c, d], Entries);
    ProjectAppend([a], [b], Entries);
    ProjectAppend([c], [d], Entries);
    assert [a, b] + [c, d] == [a, b, c, d];
    assert [a] + [b] == [a, b];
    assert [c] + [d] == [c, d];
    assert [a][..0] == [] && [b][..0] == [] && [c][..0] == [] && [d][..0] == [];
  }

  lemma NamesInOrder()
    ensures NameCompare(Beta.basename, Alpha.basename) == 1
  {
  }

  lemma DatedPairInOrder()
    ensures SortBy([OldItem, NewItem], DatedLeq(true)) == [OldItem, NewItem]
    ensures SortBy([NewItem, OldItem], DatedLeq(false)) == [NewItem, OldItem]
  {
    SortTwo(OldItem, NewItem, DatedLeq(true));
    SortTwo(NewItem, OldItem, DatedLeq(false));
  }

  lemma UndatedPairInOrder()
    ensures SortBy([BetaItem, AlphaItem], NameLeq()) == [AlphaItem, BetaItem]
  {
    SortTwo(BetaItem, AlphaItem, NameLeq());
    NamesInOrder();
  }

  lemma AscendingArrangement()
    ensures Arrange([OldItem, NewItem, BetaItem, AlphaItem], true) == [OldItem, NewItem, AlphaItem, BetaItem]
  {
    GroupsOf(OldItem, NewItem, BetaItem, AlphaItem);
    DatedPairInOrder();
    UndatedPairInOrder();
  }

  lemma DescendingArrangement()
    ensures Arrange([NewItem, OldItem, BetaItem, AlphaItem], false) == [AlphaItem, BetaItem, NewItem, OldItem]
  {
    GroupsOf(NewItem, OldItem, BetaItem, AlphaItem);
    DatedPairInOrder();
    UndatedPairInOrder();
  }

  /** Ascending: the dated files oldest first, then `alpha`, `beta`. */
  lemma AscendingOrder()
    ensures Project(Arrange([OldItem, NewItem, BetaItem, AlphaItem], true), Entries)
            == [Old.path, New.path, Alpha.path, Beta.path]
  {
    AscendingArrangement();
    ProjectFour(OldItem, NewItem, AlphaItem, BetaItem);
  }

  /** Descending: `alpha`, `beta`, then the dated files newest first. */
  lemma DescendingOrder()
    ensures Project(Arrange([NewItem, OldItem, BetaItem, AlphaItem], false), Entries)
            == [Alpha.path, Beta.path, New.path, Old.path]
  {
    DescendingArrangement();
    ProjectFour(AlphaItem, BetaItem, NewItem, OldItem);
  }

  /** The items of the second test's folder. */
  lemma DescendingItems()
    ensures Items([New, Old, Beta, Alpha], "YYYY-MM-DD") == [NewItem, OldItem, BetaItem, AlphaItem]
  {
    DailyItems();
    ItemsOfFour(New, Old, Beta, Alpha, NewItem, OldItem, BetaItem, AlphaItem, "YYYY-MM-DD");
  }

  /** `sortFolder` on the first test's folder, ascending. */
  lemma AscendingTest()
    ensures Project(Arrange(Items([Old, New, Beta, Alpha, Other], "YYYY-MM-DD"), true), Entries)
            == [Old.path, New.path, Alpha.path, Beta.path]
  {
    AscendingItems();
    AscendingOrder();
  }

  /** `sortFolder` on the second test's folder, descending. */
  lemma DescendingTest()
    ensures Project(Arrange(Items([New, Old, Beta, Alpha], "YYYY-MM-DD"), false), Entries)
            == [Alpha.path, Beta.path, New.path, Old.path]
  {
    DescendingItems();
    DescendingOrder();
  }
}
