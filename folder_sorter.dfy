/**
 * FolderSorter: the order `Sorter.sortFolder` gives the children of a
 * folder. Files only are kept; each is classified by the date in its base
 * name. Dated files are sorted by (year, month, day), reversed when
 * descending. Undated files are sorted by base name, always ascending.
 * The dated group goes first when ascending, last when descending. The
 * result is the `fileItems` entry of each path, with missing paths
 * skipped. A notice message names the undated files.
 */
module FolderSorter {
  import opened Wrappers
  import opened Text
  import opened DateExtractor
  import opened Sorting

  /** A child of a folder: a file, or anything else (a sub-folder). */
  datatype Child = File(path: string, basename: string) | Other

  datatype Folder = Folder(path: string, children: seq<Child>)

  /** `SortingItem`: a file with the date extracted from its base name. */
  datatype SortingItem = SortingItem(data: Option<Date>, path: string, basename: string)

  // ---------------------------------------------------------------------
  // Partition

  /** The file children, each with its date, in folder order. */
  function Items(children: seq<Child>, dateFormat: string): (r: seq<SortingItem>)
    ensures |r| <= |children|
  {
    if children == [] then []
    else
      var last := children[|children| - 1];
      Items(children[..|children| - 1], dateFormat) +
        if last.File? then [SortingItem(ExtractDate(last.basename, dateFormat), last.path, last.basename)]
        else []
  }

  /** Number of file children. */
  function FileCount(children: seq<Child>): nat {
    if children == [] then 0
    else FileCount(children[..|children| - 1]) + if children[|children| - 1].File? then 1 else 0
  }

  /** The items with a date, in folder order. */
  function Dated(items: seq<SortingItem>): (r: seq<SortingItem>)
    ensures forall i :: 0 <= i < |r| ==> r[i].data.Some?
  {
    if items == [] then []
    else Dated(items[..|items| - 1]) + if items[|items| - 1].data.Some? then [items[|items| - 1]] else []
  }

  /** The items without a date, in folder order. */
  function Undated(items: seq<SortingItem>): (r: seq<SortingItem>)
    ensures forall i :: 0 <= i < |r| ==> r[i].data.None?
  {
    if items == [] then []
    else Undated(items[..|items| - 1]) + if items[|items| - 1].data.None? then [items[|items| - 1]] else []
  }

  /** One more child adds at most one item at the end. */
  lemma ItemsStep(children: seq<Child>, i: nat, dateFormat: string)
    requires i < |children|
    ensures Items(children[..i + 1], dateFormat) == Items(children[..i], dateFormat) +
              if children[i].File?
              then [SortingItem(ExtractDate(children[i].basename, dateFormat), children[i].path, children[i].basename)]
              else []
  {
    assert children[..i + 1][..i] == children[..i];
  }

  /** One more item goes to exactly one end of a group. */
  lemma PartitionStep(items: seq<SortingItem>, x: SortingItem)
    ensures Dated(items + [x]) == Dated(items) + if x.data.Some? then [x] else []
    ensures Undated(items + [x]) == Undated(items) + if x.data.None? then [x] else []
  {
    assert (items + [x])[..|items|] == items;
  }

  lemma {:induction false} ItemsCount(children: seq<Child>, dateFormat: string)
    ensures |Items(children, dateFormat)| == FileCount(children)
  {
    if children != [] {
      ItemsCount(children[..|children| - 1], dateFormat);
    }
  }

  /** Every item lands in exactly one of the two groups. */
  lemma {:induction false} PartitionPermutation(items: seq<SortingItem>)
    ensures multiset(Dated(items)) + multiset(Undated(items)) == multiset(items)
  {
    if items != [] {
      var init := items[..|items| - 1];
      var x := items[|items| - 1];
      PartitionPermutation(init);
      assert items == init + [x];
      PartitionPermutationStep(init, x);
    }
  }

  lemma PartitionPermutationStep(init: seq<SortingItem>, x: SortingItem)
    requires multiset(Dated(init)) + multiset(Undated(init)) == multiset(init)
    ensures multiset(Dated(init + [x])) + multiset(Undated(init + [x])) == multiset(init + [x])
  {
    PartitionStep(init, x);
    var items := init + [x];
    var d, u := Dated(init), Undated(init);
    assert multiset(items) == multiset(init) + multiset{x};
    if x.data.Some? {
      assert Dated(items) == d + [x];
      assert Undated(items) == u by { assert u + [] == u; }
      calc {
        multiset(Dated(items)) + multiset(Undated(items));
        multiset(d) + multiset{x} + multiset(u);
        (multiset(d) + multiset(u)) + multiset{x};
      }
    } else {
      assert Dated(items) == d by { assert d + [] == d; }
      assert Undated(items) == u + [x];
      calc {
        multiset(Dated(items)) + multiset(Undated(items));
        multiset(d) + (multiset(u) + multiset{x});
        (multiset(d) + multiset(u)) + multiset{x};
      }
    }
  }

  // ---------------------------------------------------------------------
  // Comparators

  /** Chronological order on (year, month, day). */
  predicate DateLeq(a: Date, b: Date) {
    a.year < b.year || (a.year == b.year && (a.month < b.month || (a.month == b.month && a.day <= b.day)))
  }

  /** The comparator of the dated group: the first non-zero difference of
      year, month and day, negated when descending. It says "not after"
      exactly when the dates are in chronological order (reverse order when
      descending), and "equal" exactly for equal dates. */
  function DateCompare(a: Date, b: Date, ascending: bool): (c: int)
    ensures c <= 0 <==> if ascending then DateLeq(a, b) else DateLeq(b, a)
    ensures c == 0 <==> a == b
  {
    var diffYear := a.year - b.year;
    if diffYear == 0 then
      var diffMonth := a.month - b.month;
      if diffMonth == 0 then
        var diff := a.day - b.day;
        if ascending then diff else -diff
      else if ascending then diffMonth else -diffMonth
    else if ascending then diffYear else -diffYear
  }


  /** `localeCompare`, modelled as ordinal comparison: -1, 0 or 1. */
  function NameCompare(a: string, b: string): (r: int)
    ensures -1 <= r <= 1
  {
    if a == [] && b == [] then 0
    else if a == [] then -1
    else if b == [] then 1
    else if a[0] < b[0] then -1
    else if a[0] > b[0] then 1
    else NameCompare(a[1..], b[1..])
  }

  lemma {:induction false} NameCompareZero(a: string, b: string)
    ensures NameCompare(a, b) == 0 <==> a == b
  {
    if a != [] && b != [] && a[0] == b[0] {
      NameCompareZero(a[1..], b[1..]);
      assert a == [a[0]] + a[1..] && b == [b[0]] + b[1..];
    }
  }

  lemma {:induction false} NameCompareAntisymmetric(a: string, b: string)
    ensures NameCompare(a, b) == -NameCompare(b, a)
  {
    if a != [] && b != [] && a[0] == b[0] {
      NameCompareAntisymmetric(a[1..], b[1..]);
    }
  }

  lemma {:induction false} NameCompareTransitive(a: string, b: string, c: string)
    requires NameCompare(a, b) <= 0 && NameCompare(b, c) <= 0
    ensures NameCompare(a, c) <= 0
  {
    if a != [] && b != [] && c != [] && a[0] == b[0] && b[0] == c[0] {
      NameCompareTransitive(a[1..], b[1..], c[1..]);
    }
  }

  /** `leq` of the dated sort. */
  function DatedLeq(ascending: bool): (SortingItem, SortingItem) -> bool {
    (a: SortingItem, b: SortingItem) =>
      a.data.Some? && b.data.Some? && DateCompare(a.data.value, b.data.value, ascending) <= 0
  }

  /** `leq` of the undated sort. */
  function NameLeq(): (SortingItem, SortingItem) -> bool {
    (a: SortingItem, b: SortingItem) => NameCompare(a.basename, b.basename) <= 0
  }

  lemma DatedLeqTotalPreorder(s: seq<SortingItem>, ascending: bool)
    requires forall i :: 0 <= i < |s| ==> s[i].data.Some?
    ensures TotalPreorderOn(DatedLeq(ascending), s)
  {
  }

  lemma NameLeqTotalPreorder(s: seq<SortingItem>)
    ensures TotalPreorderOn(NameLeq(), s)
  {
    var leq := NameLeq();
    forall a, b | a in s && b in s ensures leq(a, b) || leq(b, a) {
      NameCompareAntisymmetric(a.basename, b.basename);
    }
    forall a, b, c | a in s && b in s && c in s && leq(a, b) && leq(b, c) ensures leq(a, c) {
      NameCompareTransitive(a.basename, b.basename, c.basename);
    }
  }

  // ---------------------------------------------------------------------
  // Arrangement and projection

  /** The items in the order `sortFolder` returns them, before projection. */
  function Arrange(items: seq<SortingItem>, ascending: bool): seq<SortingItem> {
    var dated := SortBy(Dated(items), DatedLeq(ascending));
    var undated := SortBy(Undated(items), NameLeq());
    if ascending then dated + undated else undated + dated
  }

  /** `map(item => fileItems[item.path]).filter(x => x !== undefined)`. */
  function Project<H>(items: seq<SortingItem>, fileItems: map<string, H>): (r: seq<H>)
    ensures |r| <= |items|
  {
    if items == [] then []
    else
      Project(items[..|items| - 1], fileItems) +
        if items[|items| - 1].path in fileItems then [fileItems[items[|items| - 1].path]] else []
  }

  lemma {:induction false} ProjectAppend<H>(a: seq<SortingItem>, b: seq<SortingItem>, fileItems: map<string, H>)
    ensures Project(a + b, fileItems) == Project(a, fileItems) + Project(b, fileItems)
    decreases |b|
  {
    if b == [] {
      assert a + b == a;
    } else {
      var b' := b[..|b| - 1];
      assert (a + b)[..|a + b| - 1] == a + b';
      assert (a + b)[|a + b| - 1] == b[|b| - 1];
      ProjectAppend(a, b', fileItems);
    }
  }

  /** Projection respects permutation: the same items in any order give
      the same entries, as many times each. */
  lemma {:induction false} ProjectPermutation<H>(a: seq<SortingItem>, b: seq<SortingItem>, fileItems: map<string, H>)
    requires multiset(a) == multiset(b)
    ensures multiset(Project(a, fileItems)) == multiset(Project(b, fileItems))
    decreases |a|
  {
    if a != [] {
      var x := a[|a| - 1];
      var a' := a[..|a| - 1];
      assert a == a' + [x];
      assert x in multiset(b);
      var k :| 0 <= k < |b| && b[k] == x;
      var b' := b[..k] + b[k + 1..];
      RemoveAt(b, k);
      MultisetCancel(a', b', x);
      ProjectPermutation(a', b', fileItems);
      ProjectRemoveAt(b, k, fileItems);
      ProjectAppend(a', [x], fileItems);
    } else {
      assert b == [];
    }
  }

  lemma RemoveAt<T>(b: seq<T>, k: nat)
    requires k < |b|
    ensures multiset(b) == multiset(b[..k] + b[k + 1..]) + multiset{b[k]}
  {
    assert b == b[..k] + [b[k]] + b[k + 1..];
  }

  lemma MultisetCancel<T>(a: seq<T>, b: seq<T>, x: T)
    requires multiset(a + [x]) == multiset(b) + multiset{x}
    ensures multiset(a) == multiset(b)
  {
    assert multiset(a + [x]) == multiset(a) + multiset{x};
    forall e ensures multiset(a)[e] == multiset(b)[e] {
      assert (multiset(a) + multiset{x})[e] == multiset(a)[e] + multiset{x}[e];
      assert (multiset(b) + multiset{x})[e] == multiset(b)[e] + multiset{x}[e];
    }
  }

  lemma ProjectRemoveAt<H>(b: seq<SortingItem>, k: nat, fileItems: map<string, H>)
    requires k < |b|
    ensures multiset(Project(b, fileItems))
            == multiset(Project(b[..k] + b[k + 1..], fileItems)) + multiset(Project([b[k]], fileItems))
  {
    assert b == b[..k] + ([b[k]] + b[k + 1..]);
    ProjectAppend(b[..k], [b[k]] + b[k + 1..], fileItems);
    ProjectAppend([b[k]], b[k + 1..], fileItems);
    ProjectAppend(b[..k], b[k + 1..], fileItems);
  }

  /** An entry is in the projection exactly when some item's path maps to it. */
  lemma {:induction false} ProjectMembers<H>(items: seq<SortingItem>, fileItems: map<string, H>, h: H)
    ensures h in Project(items, fileItems) <==>
            exists i :: 0 <= i < |items| && items[i].path in fileItems && fileItems[items[i].path] == h
  {
    if items != [] {
      var init := items[..|items| - 1];
      ProjectMembers(init, fileItems, h);
      if h in Project(items, fileItems) && !(h in Project(init, fileItems)) {
        var i := |items| - 1;
        assert items[i].path in fileItems && fileItems[items[i].path] == h;
      }
      if exists i :: 0 <= i < |items| && items[i].path in fileItems && fileItems[items[i].path] == h {
        var i :| 0 <= i < |items| && items[i].path in fileItems && fileItems[items[i].path] == h;
        if i < |init| {
          assert init[i] == items[i];
        }
      }
    }
  }

  /** When every item's path is a key, nothing is dropped. */
  lemma {:induction false} ProjectKeepsAll<H>(items: seq<SortingItem>, fileItems: map<string, H>)
    requires forall i :: 0 <= i < |items| ==> items[i].path in fileItems
    ensures |Project(items, fileItems)| == |items|
  {
    if items != [] {
      ProjectKeepsAll(items[..|items| - 1], fileItems);
    }
  }

  // ---------------------------------------------------------------------
  // Notice

  /** The first three base names, in the order given. */
  function LeadingNames(undated: seq<SortingItem>): (names: seq<string>)
    ensures |names| == if |undated| < 3 then |undated| else 3
    ensures forall i :: 0 <= i < |names| ==> names[i] == undated[i].basename
  {
    var n := if |undated| < 3 then |undated| else 3;
    seq(n, i requires 0 <= i < n => undated[i].basename)
  }

  /** The text of the notice about undated files. The closing quote, the
      space and the format clause are three literals so that the text
      splits at the boundaries `NoticeParts` names; together they read
      exactly as the template does. */
  function NoticeMessage(undated: seq<SortingItem>, folderPath: string, dateFormat: string): string {
    var moreFiles := if |undated| > 3 then " and " + Digits(|undated| - 3) + " more" else "";
    "Found " + Digits(|undated|) + " file(s) in folder \"" + folderPath + "\"" + " " + "that do not match format "
      + dateFormat + ": " + Join(LeadingNames(undated), ", ") + moreFiles
  }

  // ---------------------------------------------------------------------
  // sortFolder

  /** `sortFolder`: partition the file children in one pass, build the
      notice from the undated group in folder order, sort both groups and
      join them in the order of the direction, then project. `app` says
      whether the sorter has an app to show the notice with. */
  method SortFolder<H>(folder: Folder, fileItems: map<string, H>, ascending: bool, dateFormat: string, app: bool)
    returns (result: seq<H>, notice: Option<string>)
    ensures result == Project(Arrange(Items(folder.children, dateFormat), ascending), fileItems)
    ensures var undated := Undated(Items(folder.children, dateFormat));
            notice == if |undated| > 0 && app then Some(NoticeMessage(undated, folder.path, dateFormat)) else None
  {
    var filesWithDate: seq<SortingItem> := [];
    var filesWithoutDate: seq<SortingItem> := [];
    for i := 0 to |folder.children|
      invariant filesWithDate == Dated(Items(folder.children[..i], dateFormat))
      invariant filesWithoutDate == Undated(Items(folder.children[..i], dateFormat))
    {
      ItemsStep(folder.children, i, dateFormat);
      var entry := folder.children[i];
      var before := Items(folder.children[..i], dateFormat);
      if entry.File? {
        var dateData := ExtractDate(entry.basename, dateFormat);
        var sortingItem := SortingItem(dateData, entry.path, entry.basename);
        assert Items(folder.children[..i + 1], dateFormat) == before + [sortingItem];
        PartitionStep(before, sortingItem);
        if dateData.Some? {
          filesWithDate := filesWithDate + [sortingItem];
        } else {
          filesWithoutDate := filesWithoutDate + [sortingItem];
        }
      } else {
        assert Items(folder.children[..i + 1], dateFormat) == before;
      }
    }
    assert folder.children[..|folder.children|] == folder.children;

    notice := None;
    if |filesWithoutDate| > 0 && app {
      notice := Some(NoticeMessage(filesWithoutDate, folder.path, dateFormat));
    }

    if |filesWithDate| > 0 {
      filesWithDate := SortBy(filesWithDate, DatedLeq(ascending));
    }
    filesWithoutDate := SortBy(filesWithoutDate, NameLeq());

    var resultItems: seq<SortingItem>;
    if ascending {
      resultItems := filesWithDate + filesWithoutDate;
    } else {
      resultItems := filesWithoutDate + filesWithDate;
    }
    result := Project(resultItems, fileItems);
  }
}
