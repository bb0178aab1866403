/**
 * Properties of the folder order: the result is a rearrangement of the
 * folder's files, the two groups sit where the direction puts them, each
 * group is in its order, files the comparator ranks equal keep their folder
 * order, and the notice names what it promises to name.
 */
module FolderSorterProperties {
  import opened Wrappers
  import opened Text
  import opened DateExtractor
  import opened Sorting
  import opened FolderSorter

  // ---------------------------------------------------------------------
  // Membership of the groups

  lemma {:induction false} DatedMembers(items: seq<SortingItem>, e: SortingItem)
    ensures e in Dated(items) <==> e in items && e.data.Some?
  {
    if items != [] {
      var init := items[..|items| - 1];
      DatedMembers(init, e);
      assert items == init + [items[|items| - 1]];
    }
  }

  lemma {:induction false} UndatedMembers(items: seq<SortingItem>, e: SortingItem)
    ensures e in Undated(items) <==> e in items && e.data.None?
  {
    if items != [] {
      var init := items[..|items| - 1];
      UndatedMembers(init, e);
      assert items == init + [items[|items| - 1]];
    }
  }

  /** Each sorted group holds exactly the elements of its group. */
  lemma SortedMember<T>(s: seq<T>, leq: (T, T) -> bool, i: nat)
    requires i < |SortBy(s, leq)|
    ensures SortBy(s, leq)[i] in s
  {
    var r := SortBy(s, leq);
    assert r[i] in multiset(r);
  }

  /** The two groups together hold every item. */
  lemma GroupSizes(items: seq<SortingItem>)
    ensures |Dated(items)| + |Undated(items)| == |items|
  {
    PartitionPermutation(items);
    assert |multiset(Dated(items)) + multiset(Undated(items))| == |multiset(items)|;
  }

  // ---------------------------------------------------------------------
  // The arrangement

  /** The arrangement is a rearrangement of the items. */
  lemma ArrangePermutation(items: seq<SortingItem>, ascending: bool)
    ensures multiset(Arrange(items, ascending)) == multiset(items)
  {
    PartitionPermutation(items);
  }

  /** Every item has a date. */
  predicate AllDated(s: seq<SortingItem>) {
    forall i :: 0 <= i < |s| ==> s[i].data.Some?
  }

  /** No item has a date. */
  predicate AllUndated(s: seq<SortingItem>) {
    forall i :: 0 <= i < |s| ==> s[i].data.None?
  }

  /** Dated items, oldest first when `ascending`, newest first otherwise. */
  predicate Chronological(s: seq<SortingItem>, ascending: bool) {
    && AllDated(s)
    && forall i, j :: 0 <= i < j < |s| ==>
         if ascending then DateLeq(s[i].data.value, s[j].data.value)
         else DateLeq(s[j].data.value, s[i].data.value)
  }

  /** Items in base-name order. */
  predicate ByName(s: seq<SortingItem>) {
    forall i, j :: 0 <= i < j < |s| ==> NameCompare(s[i].basename, s[j].basename) <= 0
  }

  lemma SortedDatedMember(items: seq<SortingItem>, ascending: bool, i: nat)
    requires i < |SortBy(Dated(items), DatedLeq(ascending))|
    ensures SortBy(Dated(items), DatedLeq(ascending))[i].data.Some?
    ensures SortBy(Dated(items), DatedLeq(ascending))[i] in items
  {
    SortedMember(Dated(items), DatedLeq(ascending), i);
    DatedMembers(items, SortBy(Dated(items), DatedLeq(ascending))[i]);
  }

  lemma SortedUndatedMember(items: seq<SortingItem>, i: nat)
    requires i < |SortBy(Undated(items), NameLeq())|
    ensures SortBy(Undated(items), NameLeq())[i].data.None?
    ensures SortBy(Undated(items), NameLeq())[i] in items
  {
    SortedMember(Undated(items), NameLeq(), i);
    UndatedMembers(items, SortBy(Undated(items), NameLeq())[i]);
  }

  /** The sorted dated group is in date order for the direction. */
  lemma DatedGroupSorted(items: seq<SortingItem>, ascending: bool)
    ensures Chronological(SortBy(Dated(items), DatedLeq(ascending)), ascending)
  {
    var dated := Dated(items);
    var leq := DatedLeq(ascending);
    var sd := SortBy(dated, leq);
    DatedLeqTotalPreorder(dated, ascending);
    SortBySorted(dated, leq);
    forall i | 0 <= i < |sd| ensures sd[i].data.Some? {
      SortedDatedMember(items, ascending, i);
    }
    forall i, j | 0 <= i < j < |sd|
      ensures if ascending then DateLeq(sd[i].data.value, sd[j].data.value)
              else DateLeq(sd[j].data.value, sd[i].data.value)
    {
      assert leq(sd[i], sd[j]);
    }
  }

  /** The sorted undated group is undated and in name order. */
  lemma UndatedGroupSorted(items: seq<SortingItem>)
    ensures AllUndated(SortBy(Undated(items), NameLeq()))
    ensures ByName(SortBy(Undated(items), NameLeq()))
  {
    var undated := Undated(items);
    var su := SortBy(undated, NameLeq());
    NameLeqTotalPreorder(undated);
    SortBySorted(undated, NameLeq());
    forall i | 0 <= i < |su| ensures su[i].data.None? {
      SortedUndatedMember(items, i);
    }
    forall i, j | 0 <= i < j < |su| ensures NameCompare(su[i].basename, su[j].basename) <= 0 {
      assert NameLeq()(su[i], su[j]);
    }
  }

  /** Ascending: the dated files first, oldest first, then the undated
      files by name. */
  lemma ArrangeAscending(items: seq<SortingItem>)
    ensures var r := Arrange(items, true);
            var d := |Dated(items)|;
            && |r| == |items| && d <= |r|
            && Chronological(r[..d], true)
            && AllUndated(r[d..]) && ByName(r[d..])
  {
    var sd := SortBy(Dated(items), DatedLeq(true));
    var su := SortBy(Undated(items), NameLeq());
    var r := Arrange(items, true);
    GroupSizes(items);
    DatedGroupSorted(items, true);
    UndatedGroupSorted(items);
    assert r == sd + su;
    assert r[..|sd|] == sd && r[|sd|..] == su;
  }

  /** Descending: the undated files first, by name, then the dated files,
      newest first. */
  lemma ArrangeDescending(items: seq<SortingItem>)
    ensures var r := Arrange(items, false);
            var u := |Undated(items)|;
            && |r| == |items| && u <= |r|
            && AllUndated(r[..u]) && ByName(r[..u])
            && Chronological(r[u..], false)
  {
    var sd := SortBy(Dated(items), DatedLeq(false));
    var su := SortBy(Undated(items), NameLeq());
    var r := Arrange(items, false);
    GroupSizes(items);
    DatedGroupSorted(items, false);
    UndatedGroupSorted(items);
    assert r == su + sd;
    assert r[..|su|] == su && r[|su|..] == sd;
  }

  // ---------------------------------------------------------------------
  // Stability

  /** The files dated `date`. */
  function HasDate(date: Date): SortingItem -> bool {
    (e: SortingItem) => e.data == Some(date)
  }

  /** The undated files named `name`. */
  function UndatedNamed(name: string): SortingItem -> bool {
    (e: SortingItem) => e.data.None? && e.basename == name
  }

  lemma {:induction false} FilterDated(items: seq<SortingItem>, date: Date)
    ensures Filter(Dated(items), HasDate(date)) == Filter(items, HasDate(date))
  {
    if items != [] {
      var init := items[..|items| - 1];
      var last := items[|items| - 1];
      FilterDated(init, date);
      assert items == init + [last];
      FilterAppend(init, [last], HasDate(date));
      FilterAppend(Dated(init), if last.data.Some? then [last] else [], HasDate(date));
      assert Filter([last], HasDate(date)) == if HasDate(date)(last) then [last] else [];
    }
  }

  lemma {:induction false} FilterUndated(items: seq<SortingItem>, name: string)
    ensures Filter(Undated(items), UndatedNamed(name)) == Filter(items, UndatedNamed(name))
  {
    if items != [] {
      var init := items[..|items| - 1];
      var last := items[|items| - 1];
      FilterUndated(init, name);
      assert items == init + [last];
      FilterAppend(init, [last], UndatedNamed(name));
      FilterAppend(Undated(init), if last.data.None? then [last] else [], UndatedNamed(name));
      assert Filter([last], UndatedNamed(name)) == if UndatedNamed(name)(last) then [last] else [];
    }
  }

  /** Dated files are ranked equal exactly when their dates are equal. */
  lemma DatedTied(a: SortingItem, b: SortingItem, ascending: bool)
    requires a.data.Some? && b.data.Some?
    ensures Tied(DatedLeq(ascending), a, b) <==> a.data == b.data
  {
  }

  /** Files are ranked equal by name exactly when their names are equal. */
  lemma NamesTied(a: SortingItem, b: SortingItem)
    ensures Tied(NameLeq(), a, b) <==> a.basename == b.basename
  {
    NameCompareAntisymmetric(a.basename, b.basename);
    NameCompareZero(a.basename, b.basename);
  }

  /** Sorting the dated group keeps the files of one date in order. */
  lemma DatedGroupStable(items: seq<SortingItem>, ascending: bool, date: Date)
    ensures Filter(SortBy(Dated(items), DatedLeq(ascending)), HasDate(date)) == Filter(Dated(items), HasDate(date))
  {
    var dated := Dated(items);
    var leq := DatedLeq(ascending);
    var sd := SortBy(dated, leq);
    var p := HasDate(date);
    var y := SortingItem(Some(date), "", "");
    var dom := [y] + dated;
    assert forall i :: 0 <= i < |dom| ==> dom[i].data.Some?;
    DatedLeqTotalPreorder(dom, ascending);
    SortByStable(dated, y, leq);
    forall i | 0 <= i < |sd| ensures Tied(leq, sd[i], y) <==> p(sd[i]) {
      SortedDatedMember(items, ascending, i);
      DatedTied(sd[i], y, ascending);
    }
    TiedWithFilter(sd, y, leq, p);
    forall i | 0 <= i < |dated| ensures Tied(leq, dated[i], y) <==> p(dated[i]) {
      DatedTied(dated[i], y, ascending);
    }
    TiedWithFilter(dated, y, leq, p);
  }

  /** Sorting the undated group keeps the files of one name in order. */
  lemma UndatedGroupStable(items: seq<SortingItem>, name: string)
    ensures Filter(SortBy(Undated(items), NameLeq()), UndatedNamed(name)) == Filter(Undated(items), UndatedNamed(name))
  {
    var undated := Undated(items);
    var leq := NameLeq();
    var su := SortBy(undated, leq);
    var p := UndatedNamed(name);
    var y := SortingItem(None, "", name);
    NameLeqTotalPreorder([y] + undated);
    SortByStable(undated, y, leq);
    forall i | 0 <= i < |su| ensures Tied(leq, su[i], y) <==> p(su[i]) {
      SortedUndatedMember(items, i);
      NamesTied(su[i], y);
    }
    TiedWithFilter(su, y, leq, p);
    forall i | 0 <= i < |undated| ensures Tied(leq, undated[i], y) <==> p(undated[i]) {
      NamesTied(undated[i], y);
    }
    TiedWithFilter(undated, y, leq, p);
  }

  /** Files with the same date come out in folder order. */
  lemma SameDateKeepsFolderOrder(items: seq<SortingItem>, ascending: bool, date: Date)
    ensures Filter(Arrange(items, ascending), HasDate(date)) == Filter(items, HasDate(date))
  {
    var sd := SortBy(Dated(items), DatedLeq(ascending));
    var su := SortBy(Undated(items), NameLeq());
    var p := HasDate(date);
    DatedGroupStable(items, ascending, date);
    UndatedHaveNoDate(items, date);
    FilterDated(items, date);
    FilterAppend(sd, su, p);
    FilterAppend(su, sd, p);
  }

  /** Undated files with the same name come out in folder order. */
  lemma SameNameKeepsFolderOrder(items: seq<SortingItem>, ascending: bool, name: string)
    ensures Filter(Arrange(items, ascending), UndatedNamed(name)) == Filter(items, UndatedNamed(name))
  {
    var sd := SortBy(Dated(items), DatedLeq(ascending));
    var su := SortBy(Undated(items), NameLeq());
    var p := UndatedNamed(name);
    UndatedGroupStable(items, name);
    DatedAreNotNamed(items, ascending, name);
    FilterUndated(items, name);
    FilterAppend(sd, su, p);
    FilterAppend(su, sd, p);
  }

  /** No sorted undated item has a date. */
  lemma UndatedHaveNoDate(items: seq<SortingItem>, date: Date)
    ensures Filter(SortBy(Undated(items), NameLeq()), HasDate(date)) == []
  {
    var su := SortBy(Undated(items), NameLeq());
    forall i | 0 <= i < |su| ensures !HasDate(date)(su[i]) {
      SortedUndatedMember(items, i);
    }
    FilterNone(su, HasDate(date));
  }

  /** No sorted dated item is an undated item of any name. */
  lemma DatedAreNotNamed(items: seq<SortingItem>, ascending: bool, name: string)
    ensures Filter(SortBy(Dated(items), DatedLeq(ascending)), UndatedNamed(name)) == []
  {
    var sd := SortBy(Dated(items), DatedLeq(ascending));
    forall i | 0 <= i < |sd| ensures !UndatedNamed(name)(sd[i]) {
      SortedDatedMember(items, ascending, i);
    }
    FilterNone(sd, UndatedNamed(name));
  }

  // ---------------------------------------------------------------------
  // The result

  /** The result holds the entry of every file whose path has one, as many
      times as in folder order, and nothing else. */
  lemma ResultPermutation<H>(items: seq<SortingItem>, ascending: bool, fileItems: map<string, H>)
    ensures multiset(Project(Arrange(items, ascending), fileItems)) == multiset(Project(items, fileItems))
  {
    ArrangePermutation(items, ascending);
    ProjectPermutation(Arrange(items, ascending), items, fileItems);
  }

  /** Missing paths and non-file children are dropped: at most one entry per file. */
  lemma ResultAtMostFiles<H>(children: seq<Child>, ascending: bool, dateFormat: string, fileItems: map<string, H>)
    ensures |Project(Arrange(Items(children, dateFormat), ascending), fileItems)| <= FileCount(children)
  {
    var items := Items(children, dateFormat);
    ArrangePermutation(items, ascending);
    assert |multiset(Arrange(items, ascending))| == |multiset(items)|;
    ItemsCount(children, dateFormat);
  }

  /** An entry is in the result exactly when some file's path maps to it. */
  lemma ResultMembers<H>(items: seq<SortingItem>, ascending: bool, fileItems: map<string, H>, h: H)
    ensures h in Project(Arrange(items, ascending), fileItems) <==>
            exists i :: 0 <= i < |items| && items[i].path in fileItems && fileItems[items[i].path] == h
  {
    var r := Arrange(items, ascending);
    ResultPermutation(items, ascending, fileItems);
    assert h in Project(r, fileItems) <==> h in multiset(Project(r, fileItems));
    assert h in Project(items, fileItems) <==> h in multiset(Project(items, fileItems));
    ProjectMembers(items, fileItems, h);
  }

  lemma {:induction false} ItemsPaths<H>(children: seq<Child>, dateFormat: string, fileItems: map<string, H>)
    requires forall i :: 0 <= i < |children| && children[i].File? ==> children[i].path in fileItems
    ensures forall i :: 0 <= i < |Items(children, dateFormat)| ==> Items(children, dateFormat)[i].path in fileItems
  {
    if children != [] {
      ItemsPaths(children[..|children| - 1], dateFormat, fileItems);
    }
  }

  /** When every file has an entry, every file is returned. */
  lemma ResultKeepsEveryFile<H>(children: seq<Child>, ascending: bool, dateFormat: string, fileItems: map<string, H>)
    requires forall i :: 0 <= i < |children| && children[i].File? ==> children[i].path in fileItems
    ensures |Project(Arrange(Items(children, dateFormat), ascending), fileItems)| == FileCount(children)
  {
    var items := Items(children, dateFormat);
    var r := Arrange(items, ascending);
    ItemsPaths(children, dateFormat, fileItems);
    ArrangePermutation(items, ascending);
    forall i | 0 <= i < |r| ensures r[i].path in fileItems {
      assert r[i] in multiset(items);
      var k :| 0 <= k < |items| && items[k] == r[i];
    }
    ProjectKeepsAll(r, fileItems);
    assert |multiset(r)| == |multiset(items)|;
    ItemsCount(children, dateFormat);
  }

  // ---------------------------------------------------------------------
  // The notice

  /** The notice in six parts: head, a space, the format clause, a colon,
      the leading names and the remainder. */
  lemma NoticeParts(undated: seq<SortingItem>, folderPath: string, dateFormat: string)
    ensures NoticeMessage(undated, folderPath, dateFormat)
            == NoticeHead(undated, folderPath) + " " + NoticeFormat(dateFormat) + ": "
               + Join(LeadingNames(undated), ", ") + NoticeMore(undated)
  {
  }

  function NoticeHead(undated: seq<SortingItem>, folderPath: string): string {
    "Found " + Digits(|undated|) + " file(s) in folder \"" + folderPath + "\""
  }

  function NoticeFormat(dateFormat: string): string {
    "that do not match format " + dateFormat
  }

  function NoticeMore(undated: seq<SortingItem>): string {
    if |undated| > 3 then " and " + Digits(|undated| - 3) + " more" else ""
  }

  lemma ContainsParts(p1: string, p2: string, p3: string, p4: string, p5: string, p6: string)
    ensures Contains(p1 + p2 + p3 + p4 + p5 + p6, p1)
    ensures Contains(p1 + p2 + p3 + p4 + p5 + p6, p3)
    ensures Contains(p1 + p2 + p3 + p4 + p5 + p6, p6)
  {
    var s := p1 + p2 + p3 + p4 + p5 + p6;
    assert OccursAt(s, p1, 0) by {
      assert s[0..|p1|] == p1;
    }
    assert OccursAt(s, p3, |p1| + |p2|) by {
      assert s[|p1| + |p2|..|p1| + |p2| + |p3|] == p3;
    }
    assert OccursAt(s, p6, |s| - |p6|) by {
      assert s[|s| - |p6|..|s|] == p6;
    }
  }

  lemma ContainsInFifth(p1: string, p2: string, p3: string, p4: string, p5: string, p6: string, t: string)
    requires Contains(p5, t)
    ensures Contains(p1 + p2 + p3 + p4 + p5 + p6, t)
  {
    ContainsWithin(p1 + p2 + p3 + p4, p5, p6, t);
  }

  /** The notice gives the number of undated files and the folder. */
  lemma NoticeMentionsCount(undated: seq<SortingItem>, folderPath: string, dateFormat: string)
    ensures Contains(NoticeMessage(undated, folderPath, dateFormat),
                     "Found " + Digits(|undated|) + " file(s) in folder \"" + folderPath + "\"")
  {
    NoticeParts(undated, folderPath, dateFormat);
    ContainsParts(NoticeHead(undated, folderPath), " ", NoticeFormat(dateFormat), ": ",
                  Join(LeadingNames(undated), ", "), NoticeMore(undated));
  }

  /** The notice names the format. */
  lemma NoticeMentionsFormat(undated: seq<SortingItem>, folderPath: string, dateFormat: string)
    ensures Contains(NoticeMessage(undated, folderPath, dateFormat), "that do not match format " + dateFormat)
  {
    NoticeParts(undated, folderPath, dateFormat);
    ContainsParts(NoticeHead(undated, folderPath), " ", NoticeFormat(dateFormat), ": ",
                  Join(LeadingNames(undated), ", "), NoticeMore(undated));
  }

  /** The notice names each of the first three undated files. */
  lemma NoticeMentionsNames(undated: seq<SortingItem>, folderPath: string, dateFormat: string, i: nat)
    requires i < |undated| && i < 3
    ensures Contains(NoticeMessage(undated, folderPath, dateFormat), undated[i].basename)
  {
    NoticeParts(undated, folderPath, dateFormat);
    JoinContains(LeadingNames(undated), ", ", i);
    ContainsInFifth(NoticeHead(undated, folderPath), " ", NoticeFormat(dateFormat), ": ",
                    Join(LeadingNames(undated), ", "), NoticeMore(undated), undated[i].basename);
  }

  /** Past three undated files, the notice says how many more there are. */
  lemma NoticeMentionsMore(undated: seq<SortingItem>, folderPath: string, dateFormat: string)
    requires |undated| > 3
    ensures Contains(NoticeMessage(undated, folderPath, dateFormat), " and " + Digits(|undated| - 3) + " more")
  {
    NoticeParts(undated, folderPath, dateFormat);
    ContainsParts(NoticeHead(undated, folderPath), " ", NoticeFormat(dateFormat), ": ",
                  Join(LeadingNames(undated), ", "), NoticeMore(undated));
  }

  lemma OneFileHead()
    ensures "Found " + Digits(1) + " file(s) in folder \"" == "Found 1 file(s) in folder \""
  {
    assert Digits(1) == "1";
  }

  /** The notice for a single undated file, as the test of the `/Daily`
      folder with one undated file checks it. */
  lemma NoticeOneFile(item: SortingItem, folderPath: string, dateFormat: string)
    ensures Contains(NoticeMessage([item], folderPath, dateFormat), "Found 1 file(s) in folder \"" + folderPath + "\"")
    ensures Contains(NoticeMessage([item], folderPath, dateFormat), "that do not match format " + dateFormat)
  {
    NoticeMentionsCount([item], folderPath, dateFormat);
    NoticeMentionsFormat([item], folderPath, dateFormat);
    OneFileHead();
  }
}
