/** Path strings as the bot handles them: `os.path.join`, the parent slice
    `path[:-path[::-1].find('/')-1]` used by `cd//..`, and the last segment
    `path.split('/')[-1]` used to name archives. */
module Paths {
  import opened PyStrings

  /** A directory-entry name as `os.listdir` returns it. */
  predicate ValidName(n: string) {
    |n| > 0 && '/' !in n
  }

  /** `os.path.join(a, b)` on POSIX: an absolute `b` replaces `a`; otherwise
      `b` is appended, with a '/' unless `a` is empty or already ends in one. */
  function Join(a: string, b: string): (r: string)
    ensures ValidName(b) ==> |r| > |a|
  {
    if |b| > 0 && b[0] == '/' then b
    else if a == "" || a[|a| - 1] == '/' then a + b
    else a + "/" + b
  }

  /** `path[:-path[::-1].find('/')-1]` (bot.py:234). */
  function ParentSlice(path: string): string {
    SliceTo(path, -Find(Reverse(path), "/") - 1)
  }

  /** `path.split('/')[-1]`. */
  function LastSegment(path: string): string {
    LastPiece(path, "/")
  }

  /** The parent slice is the prefix strictly before the LAST '/', and the
      empty string when there is no '/' at all. */
  lemma ParentSliceIsPrefixBeforeLastSlash(path: string)
    ensures var q := ParentSlice(path);
      && ('/' !in path ==> q == "")
      && ('/' in path ==> |q| < |path| && q == path[..|q|] && path[|q|] == '/' && '/' !in path[|q| + 1..])
  {
    var k := Find(Reverse(path), "/");
    LastSlashFromEnd(path);
    var q := ParentSlice(path);
    if '/' in path {
      assert |q| == |path| - 1 - k;
      var rest := path[|q| + 1..];
      forall i | 0 <= i < |rest| ensures rest[i] != '/' {
        assert rest[i] == path[|q| + 1 + i];
      }
    }
  }

  /** `path[::-1].find('/')` counts the characters after the last '/'. */
  lemma LastSlashFromEnd(path: string)
    ensures var k := Find(Reverse(path), "/");
      && ('/' in path <==> k >= 0)
      && (k >= 0 ==> k < |path| && path[|path| - 1 - k] == '/'
                     && forall m :: |path| - k <= m < |path| ==> path[m] != '/')
  {
    var rev := Reverse(path);
    var k := Find(rev, "/");
    FindCharFirst(rev, '/');
    ReverseMembers(path, '/');
    if k >= 0 {
      forall m | |path| - k <= m < |path| ensures path[m] != '/' {
        assert rev[|path| - 1 - m] != '/';
      }
    }
  }

  lemma ReverseMembers(s: string, c: char)
    ensures c in Reverse(s) <==> c in s
  {
    var r := Reverse(s);
    if c in s {
      var j :| 0 <= j < |s| && s[j] == c;
      assert r[|s| - 1 - j] == c;
    }
    if c in r {
      var i :| 0 <= i < |r| && r[i] == c;
      assert s[|s| - 1 - i] == c;
    }
  }

  /** The last segment holds no '/'; it is the whole path when there is no
      '/', and otherwise the path is its parent slice, a '/', and its last
      segment. */
  lemma LastSegmentSplitsPath(path: string)
    ensures '/' !in LastSegment(path)
    ensures '/' !in path ==> LastSegment(path) == path
    ensures '/' in path ==> path == ParentSlice(path) + "/" + LastSegment(path)
  {
    var last := LastSegment(path);
    LastPieceIsSuffix(path, "/");
    FindChar(last, '/');
    FindChar(path, '/');
    if '/' in path {
      ParentSliceIsPrefixBeforeLastSlash(path);
      var q := ParentSlice(path);
      var s := |path| - |last| - 1;
      assert path[s..s + 1] == "/";
      assert path[s] == '/';
      assert path == path[..|q|] + "/" + path[|q| + 1..];
    }
  }

  /** Entering a child and taking the parent slice comes back: for a path
      that does not end in '/', `cd` into entry `n` then `cd//..` returns to
      it, and the child's last segment is `n`. */
  lemma {:induction false} ParentOfJoin(dir: string, n: string)
    requires ValidName(n) && dir != "" && dir[|dir| - 1] != '/'
    ensures ParentSlice(Join(dir, n)) == dir
    ensures LastSegment(Join(dir, n)) == n
  {
    var p := Join(dir, n);
    assert p == dir + "/" + n;
    assert '/' in p by { assert p[|dir|] == '/'; }
    LastSegmentSplitsPath(p);
    ParentSliceIsPrefixBeforeLastSlash(p);
    var q := ParentSlice(p);
    assert q == dir;
    assert p[|dir| + 1..] == n;
  }
}
