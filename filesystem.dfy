/** The filesystem the bot browses, as a value: a map from path strings to
    nodes.  `os.path.exists`, `os.path.isfile`, `os.listdir`,
    `os.path.getsize` and the top-down `os.walk` become functions over it,
    and `TreeSize` is what a selected entry weighs. */
module FileSystem {
  import opened PyLists
  import opened Paths

  datatype Node = File(size: nat) | Dir(children: seq<string>)

  type FileSystem = map<string, Node>

  /** `os.path.isfile`. */
  predicate IsFile(fs: FileSystem, p: string) {
    p in fs && fs[p].File?
  }

  predicate IsDir(fs: FileSystem, p: string) {
    p in fs && fs[p].Dir?
  }

  /** The children of a directory are well-formed entry names. */
  predicate ChildrenOf(fs: FileSystem, dir: string, names: seq<string>) {
    forall n :: n in names ==> ValidName(n) && Join(dir, n) in fs
  }

  /** What a real directory tree guarantees: the empty string names nothing
      (`os.path.exists('')` is false), and every directory lists distinct
      names, each of which joined to the directory is itself an entry. */
  predicate WellFormed(fs: FileSystem) {
    && "" !in fs
    && forall p :: p in fs && fs[p].Dir? ==> NoDups(fs[p].children) && ChildrenOf(fs, p, fs[p].children)
  }

  /** `os.path.getsize` on a file. */
  function SizeOf(fs: FileSystem, p: string): nat {
    if IsFile(fs, p) then fs[p].size else 0
  }

  /** The entries whose path is longer than `n`: a child's set is strictly
      smaller than its parent's, which bounds every descent. */
  function Longer(fs: FileSystem, n: nat): set<string> {
    set q | q in fs && |q| > n
  }

  lemma LongerShrinks(fs: FileSystem, p: string, c: string)
    requires c in fs && |c| > |p|
    ensures Longer(fs, |c|) < Longer(fs, |p|)
  {
    assert c in Longer(fs, |p|) && c !in Longer(fs, |c|);
  }

  /** What an entry weighs: a file its own size, a directory the sizes of all
      files below it, anything else nothing. */
  function TreeSize(fs: FileSystem, p: string): nat
    requires WellFormed(fs)
    decreases Longer(fs, |p|), 1, 0
  {
    if p !in fs then 0
    else match fs[p]
      case File(size) => size
      case Dir(children) => ChildrenSize(fs, p, children)
  }

  /** The total weight of the entries `names` of `dir`. */
  function ChildrenSize(fs: FileSystem, dir: string, names: seq<string>): nat
    requires WellFormed(fs) && ChildrenOf(fs, dir, names)
    decreases Longer(fs, |dir|), 0, |names|
  {
    if names == [] then 0
    else
      var c := Join(dir, names[0]);
      LongerShrinks(fs, dir, c);
      TreeSize(fs, c) + ChildrenSize(fs, dir, names[1..])
  }

  /** The names among `names` that are directories, in listing order. */
  function DirNames(fs: FileSystem, dir: string, names: seq<string>): (r: seq<string>)
    ensures forall n :: n in r ==> n in names && IsDir(fs, Join(dir, n))
  {
    if names == [] then []
    else (if IsDir(fs, Join(dir, names[0])) then [names[0]] else []) + DirNames(fs, dir, names[1..])
  }

  /** The names among `names` that are not directories, in listing order. */
  function FileNames(fs: FileSystem, dir: string, names: seq<string>): (r: seq<string>)
    ensures forall n :: n in r ==> n in names && !IsDir(fs, Join(dir, n))
  {
    if names == [] then []
    else (if IsDir(fs, Join(dir, names[0])) then [] else [names[0]]) + FileNames(fs, dir, names[1..])
  }

  /** One triple `(dirpath, dirnames, filenames)` produced by `os.walk`. */
  datatype WalkStep = WalkStep(dirpath: string, dirnames: seq<string>, filenames: seq<string>)

  /** `os.walk(top)`, top-down: the triple for `top`, then the walks of its
      subdirectories in listing order.  A top that is not a directory yields
      nothing. */
  function Walk(fs: FileSystem, top: string): seq<WalkStep>
    requires WellFormed(fs)
    decreases Longer(fs, |top|), 1, 0
  {
    if !IsDir(fs, top) then []
    else
      var names := fs[top].children;
      var dirs := DirNames(fs, top, names);
      [WalkStep(top, dirs, FileNames(fs, top, names))] + WalkInto(fs, top, dirs)
  }

  function WalkInto(fs: FileSystem, top: string, dirs: seq<string>): seq<WalkStep>
    requires WellFormed(fs) && ChildrenOf(fs, top, dirs)
    decreases Longer(fs, |top|), 0, |dirs|
  {
    if dirs == [] then []
    else
      var c := Join(top, dirs[0]);
      LongerShrinks(fs, top, c);
      Walk(fs, c) + WalkInto(fs, top, dirs[1..])
  }

  /** The sizes of the files `names` of `dir`, added up. */
  function FilesSize(fs: FileSystem, dir: string, names: seq<string>): nat {
    if names == [] then 0 else SizeOf(fs, Join(dir, names[0])) + FilesSize(fs, dir, names[1..])
  }

  /** The sizes of all files reported by a sequence of walk steps. */
  function StepsSize(fs: FileSystem, steps: seq<WalkStep>): nat {
    if steps == [] then 0
    else FilesSize(fs, steps[0].dirpath, steps[0].filenames) + StepsSize(fs, steps[1..])
  }

  lemma {:induction false} FilesSizeAppend(fs: FileSystem, dir: string, a: seq<string>, b: seq<string>)
    ensures FilesSize(fs, dir, a + b) == FilesSize(fs, dir, a) + FilesSize(fs, dir, b)
  {
    if a != [] {
      assert (a + b)[1..] == a[1..] + b;
      FilesSizeAppend(fs, dir, a[1..], b);
    } else {
      assert a + b == b;
    }
  }

  lemma {:induction false} StepsSizeAppend(fs: FileSystem, a: seq<WalkStep>, b: seq<WalkStep>)
    ensures StepsSize(fs, a + b) == StepsSize(fs, a) + StepsSize(fs, b)
  {
    if a != [] {
      assert (a + b)[1..] == a[1..] + b;
      StepsSizeAppend(fs, a[1..], b);
    } else {
      assert a + b == b;
    }
  }

  /** Splitting a listing into its directories and its other entries does not
      change its weight. */
  lemma {:induction false} PartitionSize(fs: FileSystem, dir: string, names: seq<string>)
    requires WellFormed(fs) && ChildrenOf(fs, dir, names)
    ensures ChildrenSize(fs, dir, names)
         == ChildrenSize(fs, dir, DirNames(fs, dir, names)) + FilesSize(fs, dir, FileNames(fs, dir, names))
  {
    if names != [] {
      var rest := names[1..];
      PartitionSize(fs, dir, rest);
      var c := Join(dir, names[0]);
      var dirs, files := DirNames(fs, dir, rest), FileNames(fs, dir, rest);
      assert ChildrenSize(fs, dir, names) == TreeSize(fs, c) + ChildrenSize(fs, dir, rest);
      if IsDir(fs, c) {
        assert DirNames(fs, dir, names) == [names[0]] + dirs;
        assert FileNames(fs, dir, names) == files;
        assert ([names[0]] + dirs)[1..] == dirs;
        assert ChildrenSize(fs, dir, [names[0]] + dirs) == TreeSize(fs, c) + ChildrenSize(fs, dir, dirs);
      } else {
        assert DirNames(fs, dir, names) == dirs;
        assert FileNames(fs, dir, names) == [names[0]] + files;
        assert ([names[0]] + files)[1..] == files;
        assert TreeSize(fs, c) == SizeOf(fs, c);
      }
    }
  }

  /** The files `os.walk` reports below a directory weigh what the directory
      weighs: walking and adding up the file sizes computes `TreeSize`. */
  lemma {:induction false} WalkSizeIsTreeSize(fs: FileSystem, top: string)
    requires WellFormed(fs)
    ensures StepsSize(fs, Walk(fs, top)) == if IsDir(fs, top) then TreeSize(fs, top) else 0
    decreases Longer(fs, |top|), 1, 0
  {
    if IsDir(fs, top) {
      var names := fs[top].children;
      var dirs := DirNames(fs, top, names);
      var first := WalkStep(top, dirs, FileNames(fs, top, names));
      StepsSizeAppend(fs, [first], WalkInto(fs, top, dirs));
      WalkIntoSize(fs, top, dirs);
      PartitionSize(fs, top, names);
    }
  }

  lemma {:induction false} WalkIntoSize(fs: FileSystem, top: string, dirs: seq<string>)
    requires WellFormed(fs) && ChildrenOf(fs, top, dirs)
    requires forall d :: d in dirs ==> IsDir(fs, Join(top, d))
    ensures StepsSize(fs, WalkInto(fs, top, dirs)) == ChildrenSize(fs, top, dirs)
    decreases Longer(fs, |top|), 0, |dirs|
  {
    if dirs != [] {
      var c := Join(top, dirs[0]);
      LongerShrinks(fs, top, c);
      WalkSizeIsTreeSize(fs, c);
      WalkIntoSize(fs, top, dirs[1..]);
      StepsSizeAppend(fs, Walk(fs, c), WalkInto(fs, top, dirs[1..]));
    }
  }

  /** `sum(_get_size(p) for p in paths)`. */
  function SelectionSize(fs: FileSystem, paths: seq<string>): nat
    requires WellFormed(fs)
  {
    if paths == [] then 0 else TreeSize(fs, paths[0]) + SelectionSize(fs, paths[1..])
  }

  lemma {:induction false} SelectionSizeAppend(fs: FileSystem, a: seq<string>, b: seq<string>)
    requires WellFormed(fs)
    ensures SelectionSize(fs, a + b) == SelectionSize(fs, a) + SelectionSize(fs, b)
  {
    if a != [] {
      assert (a + b)[1..] == a[1..] + b;
      SelectionSizeAppend(fs, a[1..], b);
    } else {
      assert a + b == b;
    }
  }

  /** Moving one path of a selection to its end keeps the weight. */
  lemma MoveToEndKeepsSize(fs: FileSystem, paths: seq<string>, x: string)
    requires WellFormed(fs) && x in paths
    ensures SelectionSize(fs, RemoveFirst(paths, x) + [x]) == SelectionSize(fs, paths)
  {
    var k := IndexOf(paths, x);
    assert paths == paths[..k] + [x] + paths[k + 1..];
    assert RemoveFirst(paths, x) == paths[..k] + paths[k + 1..];
    SelectionSizeAppend(fs, paths[..k] + [x], paths[k + 1..]);
    SelectionSizeAppend(fs, paths[..k], [x]);
    SelectionSizeAppend(fs, paths[..k] + paths[k + 1..], [x]);
    SelectionSizeAppend(fs, paths[..k], paths[k + 1..]);
  }

  /** The weight of a selection depends only on which paths it holds, and
      how often, not on their order. */
  lemma {:induction false} SelectionSizeOrderFree(fs: FileSystem, a: seq<string>, b: seq<string>)
    requires WellFormed(fs) && multiset(a) == multiset(b)
    ensures SelectionSize(fs, a) == SelectionSize(fs, b)
  {
    if a == [] {
      assert |b| == |multiset(b)| == 0;
    } else {
      var x := a[0];
      assert x in multiset(b);
      var rest := RemoveFirst(b, x);
      assert a == [x] + a[1..];
      assert multiset(a[1..]) == multiset(rest);
      SelectionSizeOrderFree(fs, a[1..], rest);
      MoveToEndKeepsSize(fs, b, x);
      SelectionSizeAppend(fs, rest, [x]);
    }
  }
}
