/** The `Disk` object of bot.py: the current folder, its listing, the
    scroll position and the selection, updated in place by the `path`
    setter, `worker` and `set_home`.  Each method is proved against the
    functions of `Navigation`. */
module Browser {
  import opened PyStrings
  import opened PyLists
  import opened Paths
  import opened FileSystem
  import opened Sorting
  import opened Errors
  import opened Callbacks
  import opened Navigation

  class Disk {
    /** `config.home_path`. */
    const home: string
    /** The working directory of the process, against which
        `os.path.isfile` resolves bare names. */
    const cwd: string

    var path: string
    var relpathlist: seq<string>
    var pathlist: seq<string>
    var cursor: int
    var selected: seq<string>
    var sizeofselected: nat

    /** The six attributes, as a value. */
    function State(): View
      reads this
    {
      View(path, relpathlist, pathlist, cursor, selected, sizeofselected)
    }

    predicate Valid()
      reads this
    {
      Inv(State())
    }

    /** `Disk(config)`: sets the path to home.  Before the first assignment
        there is no `__path` at all; the empty path stands for it, since it
        differs from every path that exists. */
    constructor (fs: FileSystem, home: string, cwd: string)
      requires WellFormed(fs) && IsDir(fs, home)
      ensures this.home == home && this.cwd == cwd
      ensures State() == Fresh(fs, cwd, home) && Valid()
    {
      this.home := home;
      this.cwd := cwd;
      path := "";
      relpathlist := [];
      pathlist := [];
      cursor := 0;
      selected := [];
      sizeofselected := 0;
      new;
      var o := SetPath(fs, home);
    }

    /** The `path` setter. */
    method SetPath(fs: FileSystem, target: string) returns (o: Outcome)
      requires WellFormed(fs) && Valid()
      modifies this
      ensures Valid()
      ensures (State(), o) == Enter(fs, home, cwd, old(State()), target)
    {
      if target !in fs {
        return Fail(PathMissing);
      }
      if path != target || target == home {
        path := target;
        if !IsDir(fs, target) {
          return Fail(NotADirectory);
        }
        relpathlist := SortPathList(fs[target].children, RelativeIsFile(fs, cwd));
        assert relpathlist == DirsThenFiles(fs[target].children, RelativeIsFile(fs, cwd));
        assert relpathlist == Listing(fs, cwd, target);
        pathlist := JoinAll(path, relpathlist);
        selected := [];
        sizeofselected := 0;
        cursor := 0;
        assert State() == Fresh(fs, cwd, target);
        FreshInv(fs, cwd, target);
      }
      return Pass;
    }

    /** `set_home`: the setter with the home path. */
    method SetHome(fs: FileSystem) returns (o: Outcome)
      requires WellFormed(fs) && Valid()
      modifies this
      ensures Valid()
      ensures (State(), o) == Enter(fs, home, cwd, old(State()), home)
    {
      o := SetPath(fs, home);
    }

    /** `worker(key)`: performs the callback `key`; returns whether the
        message must be redrawn, or the exception raised. */
    method Worker(fs: FileSystem, key: string) returns (r: Result<bool>)
      requires WellFormed(fs) && Valid()
      modifies this
      ensures Valid()
      ensures (State(), r) == Step(fs, home, cwd, old(State()), key)
    {
      var value := LastPiece(key, "//");
      if Contains(key, "select//") {
        match ParseInt(value) {
          case None => return Err(ValueError);
          case Some(i) =>
            assert Decode(key) == Ok(Select(i));
            r := ToggleEntry(fs, i);
        }
      } else if Contains(key, "up//") {
        match ParseInt(value) {
          case None => return Err(ValueError);
          case Some(n) =>
            assert Decode(key) == Ok(Up(n));
            cursor := cursor - n;
            if cursor <= 0 {
              cursor := 0;
            }
            r := Ok(true);
        }
      } else if Contains(key, "down//") {
        match ParseInt(value) {
          case None => return Err(ValueError);
          case Some(n) =>
            assert Decode(key) == Ok(Down(n));
            cursor := cursor + n;
            r := Ok(true);
        }
      } else if Contains(key, "cd//") {
        if value == ".." {
          assert Decode(key) == Ok(CdParent);
          r := OpenParent(fs);
        } else {
          match ParseInt(value) {
            case None => return Err(ValueError);
            case Some(i) =>
              assert Decode(key) == Ok(Cd(i));
              r := OpenEntry(fs, i);
          }
        }
      } else {
        assert Decode(key) == Ok(Ignore);
        r := Ok(true);
      }
    }

    /** The `select//` branch of `worker`: toggles the entry at `i` in the
        selection and recomputes the size of the selection. */
    method ToggleEntry(fs: FileSystem, i: int) returns (r: Result<bool>)
      requires WellFormed(fs) && Valid()
      modifies this
      ensures Valid()
      ensures (State(), r) == Apply(fs, home, cwd, old(State()), Select(i))
    {
      match At(relpathlist, i) {
        case None => return Err(IndexError);
        case Some(name) =>
          var p := Join(path, name);
          if p !in selected {
            selected := selected + [p];
          } else {
            RemoveFirstNoDups(selected, p);
            selected := RemoveFirst(selected, p);
          }
          sizeofselected := SizeOfSelection(fs, selected);
          return Ok(true);
      }
    }

    /** The `cd//..` branch of `worker`: the setter with the parent slice. */
    method OpenParent(fs: FileSystem) returns (r: Result<bool>)
      requires WellFormed(fs) && Valid()
      modifies this
      ensures Valid()
      ensures (State(), r) == Apply(fs, home, cwd, old(State()), CdParent)
    {
      var o := SetPath(fs, ParentSlice(path));
      r := Lift(o);
    }

    /** The `cd//i` branch of `worker`: a file is left alone and the message
        is not redrawn; anything else goes through the setter. */
    method OpenEntry(fs: FileSystem, i: int) returns (r: Result<bool>)
      requires WellFormed(fs) && Valid()
      modifies this
      ensures Valid()
      ensures (State(), r) == Apply(fs, home, cwd, old(State()), Cd(i))
    {
      match At(relpathlist, i) {
        case None => return Err(IndexError);
        case Some(name) =>
          var p := Join(path, name);
          if IsFile(fs, p) {
            return Ok(false);
          }
          var o := SetPath(fs, p);
          r := Lift(o);
      }
    }

    /** `_sort_path_list`: splits the names with the classifier into
        non-files `d` and files `f` and returns `sorted(d) + sorted(f)`, a
        permutation of the names grouped at the number of non-files. */
    static method SortPathList(names: seq<string>, isFile: string -> bool) returns (r: seq<string>)
      ensures r == DirsThenFiles(names, isFile)
    {
      var d, f := [], [];
      var i := 0;
      while i < |names|
        invariant 0 <= i <= |names|
        invariant d == NonFiles(names[..i], isFile)
        invariant f == Files(names[..i], isFile)
      {
        assert names[..i + 1][..i] == names[..i];
        if isFile(names[i]) {
          f := f + [names[i]];
        } else {
          d := d + [names[i]];
        }
        i := i + 1;
      }
      assert names[..i] == names;
      r := Sort(d) + Sort(f);
    }

    /** `_get_size`: the size of a file, or the sizes of all files that
        `os.walk` reports below a directory, added up; 0 for a path that
        does not exist. */
    static method GetSize(fs: FileSystem, p: string) returns (total: nat)
      requires WellFormed(fs)
      ensures total == TreeSize(fs, p)
    {
      total := 0;
      if IsFile(fs, p) {
        total := total + SizeOf(fs, p);
      } else {
        var steps := Walk(fs, p);
        var i := 0;
        while i < |steps|
          invariant 0 <= i <= |steps|
          invariant total == StepsSize(fs, steps[..i])
        {
          var step := steps[i];
          ghost var before := total;
          var j := 0;
          while j < |step.filenames|
            invariant 0 <= j <= |step.filenames|
            invariant total == before + FilesSize(fs, step.dirpath, step.filenames[..j])
          {
            var fp := Join(step.dirpath, step.filenames[j]);
            total := total + SizeOf(fs, fp);
            FilesSizeAppend(fs, step.dirpath, step.filenames[..j], [step.filenames[j]]);
            assert step.filenames[..j + 1] == step.filenames[..j] + [step.filenames[j]];
            j := j + 1;
          }
          assert step.filenames[..j] == step.filenames;
          StepsSizeAppend(fs, steps[..i], [step]);
          assert steps[..i + 1] == steps[..i] + [step];
          i := i + 1;
        }
        assert steps[..i] == steps;
        WalkSizeIsTreeSize(fs, p);
      }
    }

    /** `sum([self._get_size(path) for path in self.selected])`. */
    static method SizeOfSelection(fs: FileSystem, paths: seq<string>) returns (total: nat)
      requires WellFormed(fs)
      ensures total == SelectionSize(fs, paths)
    {
      total := 0;
      var i := 0;
      while i < |paths|
        invariant 0 <= i <= |paths|
        invariant total == SelectionSize(fs, paths[..i])
      {
        var size := GetSize(fs, paths[i]);
        total := total + size;
        SelectionSizeAppend(fs, paths[..i], [paths[i]]);
        assert paths[..i + 1] == paths[..i] + [paths[i]];
        i := i + 1;
      }
      assert paths[..i] == paths;
    }
  }
}
