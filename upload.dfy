/** The name `upload` gives the archive it builds from the selection. */
module Upload {
  import opened PyStrings
  import opened Paths
  import opened FileSystem
  import opened Callbacks
  import opened Navigation

  const Suffix := ".zip"

  /** `base` is what `source.split('/')[-1]` gives: a suffix of `source`
      holding no '/' that is all of `source` or starts right after a '/'. */
  predicate IsLastSegment(base: string, source: string) {
    && '/' !in base
    && |base| <= |source| && source[|source| - |base|..] == base
    && ('/' in source ==> |base| < |source| && source[|source| - |base| - 1] == '/')
    && ('/' !in source ==> base == source)
  }

  /** `zip_name` of `upload`: nothing happens without a selection; a single
      selected path names the archive after itself, several after the
      current folder, in both cases by the part after the last '/', with
      ".zip" appended.  That part is the longest suffix holding no '/'. */
  function ZipName(selected: seq<string>, path: string): (r: Option<string>)
    ensures r.None? <==> selected == []
    ensures r.Some? ==>
      && |r.value| >= |Suffix| && r.value[|r.value| - |Suffix|..] == Suffix
      && IsLastSegment(r.value[..|r.value| - |Suffix|], if |selected| == 1 then selected[0] else path)
  {
    if |selected| > 0 then
      var source := if |selected| == 1 then selected[0] else path;
      var base := LastSegment(source);
      LongestSlashFreeSuffix(source);
      assert (base + Suffix)[..|base|] == base;
      Some(base + Suffix)
    else
      None
  }

  /** `split('/')[-1]` gives the last segment. */
  lemma LongestSlashFreeSuffix(source: string)
    ensures IsLastSegment(LastSegment(source), source)
  {
    LastSegmentSplitsPath(source);
    var base := LastSegment(source);
    if '/' in source {
      var q := ParentSlice(source);
      assert source == q + "/" + base;
      assert source[|source| - |base|..] == base;
      assert source[|source| - |base| - 1] == '/';
    }
  }

  /** One selected entry `n` of the folder `dir` gives `n.zip`, whatever the
      current folder. */
  lemma SingleSelectionZip(dir: string, n: string, path: string)
    requires ValidName(n) && dir != "" && dir[|dir| - 1] != '/'
    ensures ZipName([Join(dir, n)], path) == Some(n + Suffix)
  {
    ParentOfJoin(dir, n);
  }

  /** Several selected entries in the folder `parent/name` give `name.zip`,
      whichever entries they are. */
  lemma SeveralSelectionsZip(selected: seq<string>, parent: string, name: string)
    requires |selected| >= 2
    requires ValidName(name) && parent != "" && parent[|parent| - 1] != '/'
    ensures ZipName(selected, Join(parent, name)) == Some(name + Suffix)
  {
    ParentOfJoin(parent, name);
  }

  /** A path that ends in '/' has an empty last segment, so the archive is
      named just ".zip". */
  lemma TrailingSlashZip(selected: seq<string>, path: string)
    requires |selected| >= 2 && |path| > 0 && path[|path| - 1] == '/'
    ensures ZipName(selected, path) == Some(Suffix)
  {
  }

  /** A string has exactly one last segment. */
  lemma LastSegmentUnique(a: string, b: string, source: string)
    requires IsLastSegment(a, source) && IsLastSegment(b, source)
    ensures a == b
  {
  }

  /** Selecting one entry of a folder that has no selection yet and then
      pressing "Download" names the archive after that entry. */
  lemma ZipAfterOneSelect(fs: FileSystem, home: string, cwd: string, s: View, k: nat)
    requires WellFormed(fs) && s.selected == [] && k < |s.relpathlist|
    requires ValidName(s.relpathlist[k]) && s.path != "" && s.path[|s.path| - 1] != '/'
    ensures var t := Step(fs, home, cwd, s, SelectKey(k)).0;
      ZipName(t.selected, t.path) == Some(s.relpathlist[k] + Suffix)
  {
    SelectStep(fs, home, cwd, s, k);
    SingleSelectionZip(s.path, s.relpathlist[k], s.path);
  }
}
