/**
 * FileExplorer: the part of `FileExplorerUtils` that decides which folder
 * setting applies to a folder and which direction to sort in. A folder
 * setting applies when its path equals the folder's path, either as
 * written or once each is given a leading `/`; the first such setting in
 * list order wins. The direction starts ascending and follows the settings
 * object whenever that object carries one.
 */
module FileExplorer {
  import opened Wrappers

  /** `FolderItem`: a configured folder and the date format of its notes. */
  datatype FolderItem = FolderItem(path: string, dateFormat: string)

  /** The settings object: the configured folders and, when it has been
      saved before, the sort direction. */
  datatype Settings = Settings(items: seq<FolderItem>, sortAscending: Option<bool>)

  predicate StartsWithSlash(path: string) {
    |path| > 0 && path[0] == '/'
  }

  /** The path with a leading `/`, added only when it has none. */
  function Normalize(path: string): (r: string)
    ensures StartsWithSlash(r)
    ensures StartsWithSlash(path) ==> r == path
    ensures !StartsWithSlash(path) ==> r[1..] == path
  {
    if StartsWithSlash(path) then path else "/" + path
  }

  /** Normalising twice changes nothing. */
  lemma NormalizeIdempotent(path: string)
    ensures Normalize(Normalize(path)) == Normalize(path)
  {
  }

  /** Normalising never doubles the slash: the result starts with `//`
      only when the path already did. */
  lemma NormalizeNeverDoublesSlash(path: string)
    ensures var r := Normalize(path);
            |r| >= 2 && r[1] == '/' ==> |path| >= 2 && path[0] == '/' && path[1] == '/'
  {
    if !StartsWithSlash(path) {
      var r := Normalize(path);
      assert r[1..] == path;
    }
  }

  /** The predicate of the `find` in `getFolderSettings`. */
  predicate PathsMatch(itemPath: string, path: string) {
    itemPath == path || Normalize(itemPath) == Normalize(path)
  }

  /** The path without one leading `/`, if it has one. */
  function Unslashed(path: string): string {
    if StartsWithSlash(path) then path[1..] else path
  }

  lemma NormalizeIsSlashPlusUnslashed(path: string)
    ensures Normalize(path) == "/" + Unslashed(path)
  {
    if StartsWithSlash(path) {
      assert path == [path[0]] + path[1..];
    }
  }

  /** Two paths match exactly when they agree once one leading `/` is
      dropped from each. */
  lemma PathsMatchIff(itemPath: string, path: string)
    ensures PathsMatch(itemPath, path) <==> Unslashed(itemPath) == Unslashed(path)
  {
    NormalizeIsSlashPlusUnslashed(itemPath);
    NormalizeIsSlashPlusUnslashed(path);
    if Unslashed(itemPath) == Unslashed(path) {
      assert Normalize(itemPath) == Normalize(path);
    }
    if Normalize(itemPath) == Normalize(path) {
      assert Normalize(itemPath)[1..] == Unslashed(itemPath);
      assert Normalize(path)[1..] == Unslashed(path);
    }
  }

  /** Matching does not depend on which side is the configured path. */
  lemma PathsMatchSymmetric(a: string, b: string)
    ensures PathsMatch(a, b) <==> PathsMatch(b, a)
  {
  }

  /** `Daily` names the same folder as `/Daily`; `//Daily` does not. */
  lemma PathsMatchExamples()
    ensures PathsMatch("Daily", "/Daily")
    ensures !PathsMatch("//Daily", "/Daily")
  {
    PathsMatchIff("Daily", "/Daily");
    PathsMatchIff("//Daily", "/Daily");
    assert Unslashed("/Daily") == "Daily";
    assert Unslashed("//Daily") == "/Daily";
  }

  /** `settings.items.find(...)`: the first item whose path matches. */
  function FindFolderItem(items: seq<FolderItem>, path: string): (r: Option<FolderItem>)
    ensures r.None? <==> forall i :: 0 <= i < |items| ==> !PathsMatch(items[i].path, path)
    ensures r.Some? ==> exists i :: 0 <= i < |items| && items[i] == r.value && PathsMatch(items[i].path, path)
                                    && forall j :: 0 <= j < i ==> !PathsMatch(items[j].path, path)
  {
    if items == [] then None
    else if PathsMatch(items[0].path, path) then Some(items[0])
    else
      var r := FindFolderItem(items[1..], path);
      assert forall i :: 1 <= i < |items| ==> items[i] == items[1..][i - 1];
      if r.Some? then
        var k :| 0 <= k < |items[1..]| && items[1..][k] == r.value && PathsMatch(items[1..][k].path, path)
                 && forall j :: 0 <= j < k ==> !PathsMatch(items[1..][j].path, path);
        assert items[k + 1] == r.value;
        assert forall j :: 0 <= j < k + 1 ==> !PathsMatch(items[j].path, path);
        r
      else r
  }

  /** The state `FileExplorerUtils` keeps about settings and direction. */
  class FileExplorerUtils {
    var settings: Settings
    var sortAscending: bool

    /** Ascending unless the settings carry a saved direction. */
    constructor(settings: Settings)
      ensures this.settings == settings
      ensures settings.sortAscending.None? ==> sortAscending
      ensures settings.sortAscending.Some? ==> sortAscending == settings.sortAscending.value
    {
      this.settings := settings;
      sortAscending := true;
      if settings.sortAscending.Some? {
        sortAscending := settings.sortAscending.value;
      }
    }

    /** The settings are always replaced; the direction changes only when
        the new settings carry one. */
    method UpdateSettings(settings: Settings)
      modifies this
      ensures this.settings == settings
      ensures settings.sortAscending.None? ==> sortAscending == old(sortAscending)
      ensures settings.sortAscending.Some? ==> sortAscending == settings.sortAscending.value
    {
      this.settings := settings;
      if settings.sortAscending.Some? {
        sortAscending := settings.sortAscending.value;
      }
    }

    /** The folder setting of `path`: the first configured item that
        matches, or none when no item matches. */
    function GetFolderSettings(path: string): (r: Option<FolderItem>)
      reads this
      ensures r.None? <==> forall i :: 0 <= i < |settings.items| ==> !PathsMatch(settings.items[i].path, path)
      ensures r.Some? ==> exists i :: 0 <= i < |settings.items| && settings.items[i] == r.value
                                      && PathsMatch(settings.items[i].path, path)
                                      && forall j :: 0 <= j < i ==> !PathsMatch(settings.items[j].path, path)
    {
      FindFolderItem(settings.items, path)
    }

    /** The current direction, unchanged. */
    method GetSortDirection() returns (ascending: bool)
      ensures ascending == sortAscending
    {
      ascending := sortAscending;
    }
  }
}
