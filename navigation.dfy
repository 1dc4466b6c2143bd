/** What `Disk` does, as functions on a snapshot of its state: the `path`
    property setter, `set_home` and `worker`.  A `View` holds the six
    attributes of a `Disk`; the filesystem `fs`, the configured home path
    and the process working directory `cwd` are parameters. */
module Navigation {
  import opened PyStrings
  import opened PyLists
  import opened Paths
  import opened FileSystem
  import opened Sorting
  import opened Errors
  import opened Callbacks

  /** The attributes of a `Disk`: the current path, the listing of it (names
      and joined paths), the first entry shown, the selected paths and
      their total size. */
  datatype View = View(
    path: string,
    relpathlist: seq<string>,
    pathlist: seq<string>,
    cursor: int,
    selected: seq<string>,
    sizeofselected: nat)

  /** What every reachable state satisfies: listing names are distinct, the
      two listings have equal length, and no path is selected twice. */
  predicate Inv(s: View) {
    NoDups(s.relpathlist) && |s.pathlist| == |s.relpathlist| && NoDups(s.selected)
  }

  /** `os.path.isfile(n)` as the process sees it: a relative name is looked
      up under the working directory `cwd`, an absolute one as it is. */
  function RelativeIsFile(fs: FileSystem, cwd: string): string -> bool {
    n => IsFile(fs, Join(cwd, n))
  }

  /** `_sort_path_list(os.listdir(dir))`: the names are classified with
      `os.path.isfile` on the BARE names, that is relative to `cwd`, not to
      `dir`. */
  function Listing(fs: FileSystem, cwd: string, dir: string): seq<string>
    requires IsDir(fs, dir)
  {
    DirsThenFiles(fs[dir].children, RelativeIsFile(fs, cwd))
  }

  /** `[os.path.join(dir, n) for n in names]`. */
  function JoinAll(dir: string, names: seq<string>): (r: seq<string>)
    ensures |r| == |names| && forall i :: 0 <= i < |r| ==> r[i] == Join(dir, names[i])
  {
    seq(|names|, i requires 0 <= i < |names| => Join(dir, names[i]))
  }

  /** The state the setter builds when it switches to directory `dir`. */
  function Fresh(fs: FileSystem, cwd: string, dir: string): View
    requires IsDir(fs, dir)
  {
    var rel := Listing(fs, cwd, dir);
    View(dir, rel, JoinAll(dir, rel), 0, [], 0)
  }

  /** The `path` setter (bot.py:140-165) on a state that already has a path.
      A missing target raises OSError and changes nothing.  The same path,
      unless it is home, changes nothing.  Otherwise `__path` is assigned
      first and `os.listdir` then raises NotADirectoryError when the target
      is a file, leaving the rest of the state as it was. */
  function Enter(fs: FileSystem, home: string, cwd: string, s: View, target: string): (View, Outcome) {
    if target !in fs then (s, Fail(PathMissing))
    else if s.path == target && target != home then (s, Pass)
    else if !IsDir(fs, target) then (s.(path := target), Fail(NotADirectory))
    else (Fresh(fs, cwd, target), Pass)
  }

  /** An exception raised by the setter propagates out of `worker`. */
  function Lift(o: Outcome): Result<bool> {
    match o
    case Pass => Ok(true)
    case Fail(e) => Err(e)
  }

  /** `selected.append(p)` when `p` is not selected, else `selected.remove(p)`. */
  function Toggle(selected: seq<string>, p: string): seq<string> {
    if p !in selected then selected + [p] else RemoveFirst(selected, p)
  }

  /** The body of `worker` once the key is understood: the new state and the
      value returned, or the exception raised. */
  function Apply(fs: FileSystem, home: string, cwd: string, s: View, a: Action): (View, Result<bool>)
    requires WellFormed(fs)
  {
    match a
    case Select(i) =>
      (match At(s.relpathlist, i)
       case None => (s, Err(IndexError))
       case Some(name) =>
         var sel := Toggle(s.selected, Join(s.path, name));
         (s.(selected := sel, sizeofselected := SelectionSize(fs, sel)), Ok(true)))
    case Up(n) =>
      var c := s.cursor - n;
      (s.(cursor := if c <= 0 then 0 else c), Ok(true))
    case Down(n) =>
      (s.(cursor := s.cursor + n), Ok(true))
    case CdParent =>
      var e := Enter(fs, home, cwd, s, ParentSlice(s.path));
      (e.0, Lift(e.1))
    case Cd(i) =>
      (match At(s.relpathlist, i)
       case None => (s, Err(IndexError))
       case Some(name) =>
         var p := Join(s.path, name);
         if IsFile(fs, p) then (s, Ok(false))
         else
           var e := Enter(fs, home, cwd, s, p);
           (e.0, Lift(e.1)))
    case Ignore => (s, Ok(true))
  }

  /** `worker(key)` (bot.py:197-245). */
  function Step(fs: FileSystem, home: string, cwd: string, s: View, key: string): (View, Result<bool>)
    requires WellFormed(fs)
  {
    match Decode(key)
    case Err(e) => (s, Err(e))
    case Ok(a) => Apply(fs, home, cwd, s, a)
  }

  // ---------------------------------------------------------------- lemmas

  /** A sequence without duplicates holds each value at most once. */
  lemma {:induction false} NoDupsCount(a: seq<string>, x: string)
    requires NoDups(a)
    ensures multiset(a)[x] <= 1
  {
    if a != [] {
      var t := a[1..];
      assert a == [a[0]] + t;
      assert NoDups(t);
      NoDupsCount(t, x);
      assert a[0] !in t;
    }
  }

  /** A permutation of a sequence without duplicates has none. */
  lemma PermutationNoDups(a: seq<string>, b: seq<string>)
    requires NoDups(a) && multiset(a) == multiset(b)
    ensures NoDups(b)
  {
    forall i, j | 0 <= i < j < |b| ensures b[i] != b[j] {
      NoDupsCount(a, b[j]);
      assert b == b[..j] + [b[j]] + b[j + 1..];
      assert b[i] == b[..j][i];
      assert multiset(b)[b[j]] >= multiset(b[..j])[b[j]] + 1;
    }
  }

  /** The state after switching to a directory: its listing is a permutation
      of the directory's entries, entries classified as non-files first and
      files after, each group sorted; the joined paths match the names; the
      cursor is at the top and the selection empty. */
  lemma FreshListing(fs: FileSystem, cwd: string, dir: string)
    requires WellFormed(fs) && IsDir(fs, dir)
    ensures var v := Fresh(fs, cwd, dir);
      && v.path == dir && v.cursor == 0 && v.selected == [] && v.sizeofselected == 0
      && multiset(v.relpathlist) == multiset(fs[dir].children)
      && Grouped(v.relpathlist, |NonFiles(fs[dir].children, RelativeIsFile(fs, cwd))|, RelativeIsFile(fs, cwd))
      && |v.pathlist| == |v.relpathlist|
      && (forall i :: 0 <= i < |v.pathlist| ==> v.pathlist[i] == Join(dir, v.relpathlist[i]))
      && (forall n :: n in v.relpathlist ==> ValidName(n) && Join(dir, n) in fs)
      && Inv(v)
  {
    var names := fs[dir].children;
    var rel := Listing(fs, cwd, dir);
    DirsThenFilesIsGrouped(names, RelativeIsFile(fs, cwd));
    PermutationNoDups(names, rel);
    forall n | n in rel ensures ValidName(n) && Join(dir, n) in fs {
      assert n in multiset(names);
    }
  }

  /** The fresh state keeps the invariant, and its names are entries of
      the directory. */
  lemma FreshInv(fs: FileSystem, cwd: string, dir: string)
    requires WellFormed(fs) && IsDir(fs, dir)
    ensures Inv(Fresh(fs, cwd, dir))
    ensures forall n :: n in Fresh(fs, cwd, dir).relpathlist ==> ValidName(n) && Join(dir, n) in fs
  {
    FreshListing(fs, cwd, dir);
  }

  /** When the working directory is the listed directory itself, the
      classification is the true one: no directory is listed after a file. */
  lemma ListingFromInside(fs: FileSystem, dir: string)
    requires WellFormed(fs) && IsDir(fs, dir)
    ensures var v := Fresh(fs, dir, dir);
      forall i, j :: 0 <= i < j < |v.pathlist| && IsFile(fs, v.pathlist[i]) ==> IsFile(fs, v.pathlist[j])
  {
    var isFile := RelativeIsFile(fs, dir);
    var v := Fresh(fs, dir, dir);
    FreshListing(fs, dir, dir);
    var k := |NonFiles(fs[dir].children, isFile)|;
    assert SplitAt(v.relpathlist, k, isFile);
    forall i, j | 0 <= i < j < |v.pathlist| && IsFile(fs, v.pathlist[i])
      ensures IsFile(fs, v.pathlist[j])
    {
      assert isFile(v.relpathlist[i]);
      assert i >= k;
      assert isFile(v.relpathlist[j]);
    }
  }

  /** The directory tree of the example below. */
  function SampleTree(): FileSystem {
    map["/" := Dir(["d", "b"]), "/b" := File(1), "/d" := Dir(["a", "b"]),
        "/d/a" := File(2), "/d/b" := Dir([])]
  }

  lemma SampleTreeWellFormed()
    ensures WellFormed(SampleTree()) && IsDir(SampleTree(), "/d")
  {
    var fs := SampleTree();
    assert Join("/", "d") == "/d" && Join("/", "b") == "/b";
    assert Join("/d", "a") == "/d/a" && Join("/d", "b") == "/d/b";
    assert fs.Keys == {"/", "/b", "/d", "/d/a", "/d/b"};
  }

  lemma SortSingleton(x: string)
    ensures Sort([x]) == [x]
  {
    assert [x][1..] == [];
  }

  /** A non-file `a` and a file `b` are listed in that order. */
  lemma ListedInOrder(isFile: string -> bool)
    requires !isFile("a") && isFile("b")
    ensures DirsThenFiles(["a", "b"], isFile) == ["a", "b"]
  {
    var names := ["a", "b"];
    assert names[..1] == ["a"] && names[..0] == [];
    assert NonFiles(names, isFile) == ["a"];
    assert Files(names, isFile) == ["b"];
    SortSingleton("a");
    SortSingleton("b");
  }

  /** Seen from `/`, the name `a` is not a file and the name `b` is. */
  lemma SampleClassification()
    ensures Listing(SampleTree(), "/", "/d") == ["a", "b"]
  {
    var fs := SampleTree();
    var isFile := RelativeIsFile(fs, "/");
    assert Join("/", "a") == "/a" && Join("/", "b") == "/b";
    assert "/a" !in fs && "/b" in fs;
    assert !isFile("a") && isFile("b");
    assert fs["/d"].children == ["a", "b"];
    ListedInOrder(isFile);
  }

  /** From another working directory the classification can be wrong: `/d`
      holds the file `a` and the directory `b`, but the process runs in `/`,
      where `b` is a file, so the directory `b` is listed after the file. */
  lemma ListingFromElsewhere()
    ensures WellFormed(SampleTree()) && IsDir(SampleTree(), "/d")
    ensures IsFile(SampleTree(), "/d/a") && IsDir(SampleTree(), "/d/b")
    ensures Fresh(SampleTree(), "/", "/d").pathlist == ["/d/a", "/d/b"]
  {
    SampleTreeWellFormed();
    SampleClassification();
    SamplePaths();
    assert Fresh(SampleTree(), "/", "/d").pathlist == JoinAll("/d", Listing(SampleTree(), "/", "/d"));
  }

  lemma SamplePaths()
    ensures JoinAll("/d", ["a", "b"]) == ["/d/a", "/d/b"]
  {
    assert Join("/d", "a") == "/d/a" && Join("/d", "b") == "/d/b";
    var paths := JoinAll("/d", ["a", "b"]);
    assert |paths| == 2 && paths[0] == "/d/a" && paths[1] == "/d/b";
  }

  /** The setter's four outcomes: a missing path raises OSError and changes
      nothing; the current path, unless it is home, changes nothing; a file
      raises NotADirectoryError after the path alone was replaced; any other
      target resets the state to a fresh listing. */
  lemma EnterOutcomes(fs: FileSystem, home: string, cwd: string, s: View, target: string)
    requires WellFormed(fs)
    ensures var (t, o) := Enter(fs, home, cwd, s, target);
      && (o == Fail(PathMissing) <==> target !in fs)
      && (o == Fail(PathMissing) ==> t == s)
      && (o == Fail(NotADirectory) <==> IsFile(fs, target) && (s.path != target || target == home))
      && (o == Fail(NotADirectory) ==> t == s.(path := target))
      && (o == Pass && (s.path != target || target == home) ==> IsDir(fs, target) && t == Fresh(fs, cwd, target))
      && (o == Pass && s.path == target && target != home ==> t == s)
      && (o == Pass <==> target in fs && (IsDir(fs, target) || (s.path == target && target != home)))
  {
  }

  /** `set_home` always rebuilds the state when home is a directory, even
      when the browser is already there: the selection is cleared. */
  lemma SetHomeResets(fs: FileSystem, home: string, cwd: string, s: View)
    requires WellFormed(fs) && IsDir(fs, home)
    ensures var (t, o) := Enter(fs, home, cwd, s, home);
      o == Pass && t.path == home && t.selected == [] && t.cursor == 0 && t.sizeofselected == 0
      && multiset(t.relpathlist) == multiset(fs[home].children)
  {
    FreshListing(fs, cwd, home);
  }

  /** Setting the path twice in a row is setting it once. */
  lemma EnterIdempotent(fs: FileSystem, home: string, cwd: string, s: View, target: string)
    requires WellFormed(fs)
    requires Enter(fs, home, cwd, s, target).1 == Pass
    ensures var t := Enter(fs, home, cwd, s, target).0;
      Enter(fs, home, cwd, t, target) == (t, Pass)
  {
  }

  /** Toggling a path keeps a selection free of duplicates. */
  lemma ToggleNoDups(selected: seq<string>, p: string)
    requires NoDups(selected)
    ensures NoDups(Toggle(selected, p))
  {
    if p in selected {
      RemoveFirstNoDups(selected, p);
    }
  }

  /** Whatever the setter does keeps the invariant. */
  lemma EnterKeepsInv(fs: FileSystem, home: string, cwd: string, s: View, target: string)
    requires WellFormed(fs) && Inv(s)
    ensures Inv(Enter(fs, home, cwd, s, target).0)
  {
    if IsDir(fs, target) {
      FreshInv(fs, cwd, target);
    }
  }

  /** Every action keeps the state invariant. */
  lemma ApplyKeepsInv(fs: FileSystem, home: string, cwd: string, s: View, a: Action)
    requires WellFormed(fs) && Inv(s)
    ensures Inv(Apply(fs, home, cwd, s, a).0)
  {
    match a {
      case Select(i) =>
        if At(s.relpathlist, i).Some? {
          ToggleNoDups(s.selected, Join(s.path, At(s.relpathlist, i).value));
        }
      case CdParent =>
        EnterKeepsInv(fs, home, cwd, s, ParentSlice(s.path));
      case Cd(i) =>
        if At(s.relpathlist, i).Some? {
          EnterKeepsInv(fs, home, cwd, s, Join(s.path, At(s.relpathlist, i).value));
        }
      case Up(_) =>
      case Down(_) =>
      case Ignore =>
    }
  }

  /** Every call of `worker` keeps the state invariant. */
  lemma StepKeepsInv(fs: FileSystem, home: string, cwd: string, s: View, key: string)
    requires WellFormed(fs) && Inv(s)
    ensures Inv(Step(fs, home, cwd, s, key).0)
  {
    if Decode(key).Ok? {
      ApplyKeepsInv(fs, home, cwd, s, Decode(key).value);
    }
  }

  /** An exception leaves the state as it was, except for NotADirectoryError,
      which only `cd//..` onto a file can raise and which replaces the path
      alone; a key that is not understood raises ValueError and nothing
      else does. */
  lemma StepErrors(fs: FileSystem, home: string, cwd: string, s: View, key: string)
    requires WellFormed(fs)
    ensures var (t, r) := Step(fs, home, cwd, s, key);
      && (r == Err(ValueError) <==> Decode(key).Err?)
      && (r.Err? && r.error != NotADirectory ==> t == s)
      && (r == Err(NotADirectory) ==>
            Decode(key) == Ok(CdParent) && t == s.(path := ParentSlice(s.path)) && IsFile(fs, t.path))
  {
    match Decode(key)
    case Err(_) =>
    case Ok(a) =>
      match a
      case CdParent =>
        EnterOutcomes(fs, home, cwd, s, ParentSlice(s.path));
      case Cd(i) =>
        if At(s.relpathlist, i).Some? {
          EnterOutcomes(fs, home, cwd, s, Join(s.path, At(s.relpathlist, i).value));
        }
      case _ =>
  }

  /** `relpathlist[int(value)]` raises IndexError exactly when a `select//`
      or `cd//` key carries an index outside `-len <= i < len`, and then
      nothing changes. */
  lemma StepIndexErrors(fs: FileSystem, home: string, cwd: string, s: View, key: string)
    requires WellFormed(fs)
    ensures var (t, r) := Step(fs, home, cwd, s, key);
      && (r == Err(IndexError) <==>
            Decode(key).Ok? && (Decode(key).value.Select? || Decode(key).value.Cd?)
            && !(-|s.relpathlist| <= Decode(key).value.index < |s.relpathlist|))
      && (r == Err(IndexError) ==> t == s)
  {
    match Decode(key)
    case Err(_) =>
    case Ok(a) =>
      match a
      case CdParent =>
        EnterOutcomes(fs, home, cwd, s, ParentSlice(s.path));
      case Cd(i) =>
        if At(s.relpathlist, i).Some? {
          EnterOutcomes(fs, home, cwd, s, Join(s.path, At(s.relpathlist, i).value));
        }
      case _ =>
  }

  /** `sizeofselected` is the weight of the selection. */
  predicate SizeCurrent(fs: FileSystem, s: View)
    requires WellFormed(fs)
  {
    s.sizeofselected == SelectionSize(fs, s.selected)
  }

  /** Over an unchanged filesystem, every call of `worker` keeps
      `sizeofselected` equal to the weight of the selection: selecting
      recomputes it, switching folders clears both, and nothing else
      touches either. */
  lemma StepKeepsSize(fs: FileSystem, home: string, cwd: string, s: View, key: string)
    requires WellFormed(fs) && SizeCurrent(fs, s)
    ensures SizeCurrent(fs, Step(fs, home, cwd, s, key).0)
  {
  }

  /** `worker` returns False exactly when it is asked to enter an entry that
      is a file, and then it changes nothing; every other completed call
      returns True. */
  lemma StepFalseOnFiles(fs: FileSystem, home: string, cwd: string, s: View, key: string)
    requires WellFormed(fs)
    ensures var (t, r) := Step(fs, home, cwd, s, key);
      && (r == Ok(false) <==>
            Decode(key).Ok? && Decode(key).value.Cd?
            && At(s.relpathlist, Decode(key).value.index).Some?
            && IsFile(fs, Join(s.path, At(s.relpathlist, Decode(key).value.index).value)))
      && (r == Ok(false) ==> t == s)
  {
  }

  /** `select//k` toggles the membership of the k-th entry's path and of no
      other path, keeps the selection free of duplicates, recomputes the
      size as the sum over the selection, and touches nothing else. */
  lemma SelectToggles(fs: FileSystem, home: string, cwd: string, s: View, k: nat)
    requires WellFormed(fs) && NoDups(s.selected) && k < |s.relpathlist|
    ensures var (t, r) := Step(fs, home, cwd, s, SelectKey(k));
      var p := Join(s.path, s.relpathlist[k]);
      && r == Ok(true)
      && (p in t.selected <==> p !in s.selected)
      && (forall q :: q != p ==> (q in t.selected <==> q in s.selected))
      && NoDups(t.selected)
      && t.sizeofselected == SelectionSize(fs, t.selected)
      && t == s.(selected := t.selected, sizeofselected := t.sizeofselected)
  {
    SelectStep(fs, home, cwd, s, k);
    ToggleMembership(s.selected, Join(s.path, s.relpathlist[k]));
  }

  /** On a list without duplicates, toggling `p` flips its membership,
      keeps every other path's, and leaves no duplicates. */
  lemma ToggleMembership(selected: seq<string>, p: string)
    requires NoDups(selected)
    ensures var t := Toggle(selected, p);
      && (p in t <==> p !in selected)
      && (forall q :: q != p ==> (q in t <==> q in selected))
      && NoDups(t)
  {
    ToggleNoDups(selected, p);
    if p in selected {
      RemoveFirstNoDups(selected, p);
      var t := RemoveFirst(selected, p);
      var m := IndexOf(selected, p);
      forall q | q != p ensures q in t <==> q in selected {
        if q in selected {
          var j :| 0 <= j < |selected| && selected[j] == q;
          if j < m { assert t[j] == q; } else { assert t[j - 1] == q; }
        }
      }
    }
  }

  /** Selecting the same entry twice gives back the same selection, as a
      set, and the same size; when the entry was not selected, the very
      same list. */
  lemma SelectTwiceRestores(fs: FileSystem, home: string, cwd: string, s: View, k: nat)
    requires WellFormed(fs) && NoDups(s.selected) && k < |s.relpathlist|
    ensures var t := Step(fs, home, cwd, s, SelectKey(k)).0;
      var (u, r) := Step(fs, home, cwd, t, SelectKey(k));
      && r == Ok(true)
      && multiset(u.selected) == multiset(s.selected)
      && u.sizeofselected == SelectionSize(fs, s.selected)
      && (SizeCurrent(fs, s) ==> u.sizeofselected == s.sizeofselected)
      && (Join(s.path, s.relpathlist[k]) !in s.selected ==> u.selected == s.selected)
      && u == s.(selected := u.selected, sizeofselected := u.sizeofselected)
  {
    var p := Join(s.path, s.relpathlist[k]);
    SelectStep(fs, home, cwd, s, k);
    var t := Step(fs, home, cwd, s, SelectKey(k)).0;
    SelectStep(fs, home, cwd, t, k);
    var u := Step(fs, home, cwd, t, SelectKey(k)).0;
    assert u.selected == Toggle(Toggle(s.selected, p), p);
    if p in s.selected {
      RemoveFirstNoDups(s.selected, p);
      MoveToEndKeepsSize(fs, s.selected, p);
    } else {
      RemoveAppended(s.selected, p);
    }
  }

  /** `select//k` on an entry in range toggles that entry's joined path. */
  lemma SelectStep(fs: FileSystem, home: string, cwd: string, s: View, k: nat)
    requires WellFormed(fs) && k < |s.relpathlist|
    ensures var sel := Toggle(s.selected, Join(s.path, s.relpathlist[k]));
      Step(fs, home, cwd, s, SelectKey(k))
        == (s.(selected := sel, sizeofselected := SelectionSize(fs, sel)), Ok(true))
  {
    DecodeSelectKey(k);
    assert At(s.relpathlist, k) == Some(s.relpathlist[k]);
  }

  /** `up//n` moves the cursor back by `n`, never below 0; `down//n` moves
      it forward by `n`; neither touches anything else. */
  lemma ScrollKeys(fs: FileSystem, home: string, cwd: string, s: View, n: nat)
    requires WellFormed(fs)
    ensures var (t, r) := Step(fs, home, cwd, s, UpKey(n));
      && r == Ok(true) && t.cursor >= 0
      && (s.cursor > n ==> t.cursor == s.cursor - n)
      && (s.cursor <= n ==> t.cursor == 0)
      && t == s.(cursor := t.cursor)
    ensures var (t, r) := Step(fs, home, cwd, s, DownKey(n));
      r == Ok(true) && t == s.(cursor := s.cursor + n)
  {
    DecodeScrollKeys(n);
  }

  /** Any amount `int()` accepts, negative ones included: `up//n` moves the
      cursor back by n and clamps it at 0 when it would reach 0 or below, so
      it is never negative afterwards; `down//n` adds n with no clamp. */
  lemma ScrollAnyAmount(fs: FileSystem, home: string, cwd: string, s: View, key: string)
    requires WellFormed(fs)
    ensures Decode(key).Ok? && Decode(key).value.Up? ==>
      var n := Decode(key).value.count;
      var (t, r) := Step(fs, home, cwd, s, key);
      && r == Ok(true) && t.cursor >= 0
      && t == s.(cursor := if s.cursor - n <= 0 then 0 else s.cursor - n)
    ensures Decode(key).Ok? && Decode(key).value.Down? ==>
      Step(fs, home, cwd, s, key) == (s.(cursor := s.cursor + Decode(key).value.count), Ok(true))
  {
  }

  /** Scrolling down and back up by the same amount returns to the same
      state from any cursor that is not negative. */
  lemma DownThenUp(fs: FileSystem, home: string, cwd: string, s: View, n: nat)
    requires WellFormed(fs) && s.cursor >= 0
    ensures var t := Step(fs, home, cwd, s, DownKey(n)).0;
      Step(fs, home, cwd, t, UpKey(n)) == (s, Ok(true))
  {
    DecodeScrollKeys(n);
  }

  /** `cd//..` asks the setter for the prefix before the last '/'; a path
      without '/', or whose only '/' leads it (such as "/a"), gives the empty
      string, which does not exist, so OSError is raised and nothing
      changes. */
  lemma ParentKeyStep(fs: FileSystem, home: string, cwd: string, s: View)
    requires WellFormed(fs)
    ensures var e := Enter(fs, home, cwd, s, ParentSlice(s.path));
      Step(fs, home, cwd, s, ParentKey) == (e.0, Lift(e.1))
    ensures '/' !in s.path ==> Step(fs, home, cwd, s, ParentKey) == (s, Err(PathMissing))
    ensures ParentSlice(s.path) == "" ==> Step(fs, home, cwd, s, ParentKey) == (s, Err(PathMissing))
  {
    DecodeParentKey();
    ParentSliceIsPrefixBeforeLastSlash(s.path);
  }

  /** `cd//k` on an entry that is not a file hands the joined path to the
      setter. */
  lemma CdNonFile(fs: FileSystem, home: string, cwd: string, s: View, k: nat)
    requires WellFormed(fs) && k < |s.relpathlist|
    requires !IsFile(fs, Join(s.path, s.relpathlist[k]))
    ensures var e := Enter(fs, home, cwd, s, Join(s.path, s.relpathlist[k]));
      Apply(fs, home, cwd, s, Cd(k)) == (e.0, Lift(e.1))
  {
  }

  /** `cd` onto a directory entry other than the current path switches to
      it with a fresh listing. */
  lemma CdIntoDirectory(fs: FileSystem, home: string, cwd: string, s: View, k: nat)
    requires WellFormed(fs) && k < |s.relpathlist|
    requires IsDir(fs, Join(s.path, s.relpathlist[k])) && Join(s.path, s.relpathlist[k]) != s.path
    ensures Apply(fs, home, cwd, s, Cd(k)) == (Fresh(fs, cwd, Join(s.path, s.relpathlist[k])), Ok(true))
  {
    var p := Join(s.path, s.relpathlist[k]);
    CdNonFile(fs, home, cwd, s, k);
    assert Enter(fs, home, cwd, s, p) == (Fresh(fs, cwd, p), Pass);
  }

  /** Entering a subdirectory with `cd//k` and coming back with `cd//..`
      lands on the directory again, with a fresh listing, from any state
      whose listing is current and whose path does not end in '/'. */
  lemma CdThenParent(fs: FileSystem, home: string, cwd: string, s: View, k: nat)
    requires WellFormed(fs) && IsDir(fs, s.path)
    requires s.relpathlist == Listing(fs, cwd, s.path)
    requires s.path != "" && s.path[|s.path| - 1] != '/'
    requires k < |s.relpathlist| && IsDir(fs, Join(s.path, s.relpathlist[k]))
    ensures var (t, r) := Step(fs, home, cwd, s, CdKey(k));
      && r == Ok(true) && t.path == Join(s.path, s.relpathlist[k])
      && Step(fs, home, cwd, t, ParentKey) == (Fresh(fs, cwd, s.path), Ok(true))
  {
    var name := s.relpathlist[k];
    var child := Join(s.path, name);
    FreshInv(fs, cwd, s.path);
    assert name in s.relpathlist;
    ParentOfJoin(s.path, name);
    CdIntoDirectory(fs, home, cwd, s, k);
    DecodeCdKey(k);
    var t := Fresh(fs, cwd, child);
    assert Step(fs, home, cwd, s, CdKey(k)) == (t, Ok(true));
    assert t.path == child;
    ParentKeyStep(fs, home, cwd, t);
    EnterOutcomes(fs, home, cwd, t, s.path);
  }
}
