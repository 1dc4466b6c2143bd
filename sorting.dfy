/** The order `_sort_path_list` gives a listing: the entries its classifier
    calls non-files, sorted, followed by the entries it calls files, sorted.
    `Sort` is Python's `sorted` on strings, specified by being ordered and a
    permutation of its input; such a result is unique. */
module Sorting {
  import opened PyStrings

  predicate Sorted(s: seq<string>) {
    forall i, j :: 0 <= i < j < |s| ==> LexLe(s[i], s[j])
  }

  lemma LexLeReflexive(a: string)
    ensures LexLe(a, a)
  {
    LexLeTotal(a, a);
  }

  /** Inserts `x` into a sorted sequence, keeping it sorted. */
  function Insert(x: string, s: seq<string>): (r: seq<string>)
    requires Sorted(s)
    ensures Sorted(r)
    ensures multiset(r) == multiset(s) + multiset{x}
  {
    if s == [] then [x]
    else if LexLe(x, s[0]) then
      PrependSmallest(x, s);
      [x] + s
    else
      LexLeTotal(x, s[0]);
      var t := Insert(x, s[1..]);
      PrependHead(s, x, t);
      [s[0]] + t
  }

  /** An element no greater than the head of a sorted sequence can go in front. */
  lemma PrependSmallest(x: string, s: seq<string>)
    requires Sorted(s) && |s| > 0 && LexLe(x, s[0])
    ensures Sorted([x] + s)
  {
    var r := [x] + s;
    forall i, j | 0 <= i < j < |r| ensures LexLe(r[i], r[j]) {
      if i == 0 {
        if j > 1 {
          LexLeTransitive(x, s[0], s[j - 1]);
        }
      } else {
        assert r[i] == s[i - 1] && r[j] == s[j - 1];
      }
    }
  }

  /** The head of a sorted `s` can go in front of a sorted `t` made of the
      tail of `s` and an element above the head. */
  lemma PrependHead(s: seq<string>, x: string, t: seq<string>)
    requires Sorted(s) && |s| > 0 && LexLe(s[0], x)
    requires Sorted(t) && multiset(t) == multiset(s[1..]) + multiset{x}
    ensures Sorted([s[0]] + t)
    ensures multiset([s[0]] + t) == multiset(s) + multiset{x}
  {
    var r := [s[0]] + t;
    forall j | 0 <= j < |t| ensures LexLe(s[0], t[j]) {
      assert t[j] in multiset(t);
      if t[j] != x {
        assert t[j] in multiset(s[1..]);
        var m :| 0 <= m < |s[1..]| && s[1..][m] == t[j];
        assert s[1 + m] == t[j];
      }
    }
    forall i, j | 0 <= i < j < |r| ensures LexLe(r[i], r[j]) {
      if i > 0 {
        assert r[i] == t[i - 1] && r[j] == t[j - 1];
      } else {
        assert r[j] == t[j - 1];
      }
    }
    assert s == [s[0]] + s[1..];
  }

  /** Python `sorted(s)` for a list of strings. */
  function Sort(s: seq<string>): (r: seq<string>)
    ensures Sorted(r)
    ensures multiset(r) == multiset(s)
  {
    if s == [] then []
    else
      assert s == [s[0]] + s[1..];
      Insert(s[0], Sort(s[1..]))
  }

  /** Two sorted sequences with the same elements are equal: `sorted` has
      exactly one possible result. */
  lemma {:induction false} SortedUnique(a: seq<string>, b: seq<string>)
    requires Sorted(a) && Sorted(b) && multiset(a) == multiset(b)
    ensures a == b
    decreases |a|
  {
    if a == [] {
      assert |multiset(b)| == 0;
    } else {
      assert |b| == |multiset(b)| == |multiset(a)| == |a|;
      SortedHeads(a, b);
      Tail(a);
      Tail(b);
      SortedUnique(a[1..], b[1..]);
    }
  }

  /** Two non-empty ordered permutations of each other start alike. */
  lemma SortedHeads(a: seq<string>, b: seq<string>)
    requires Sorted(a) && Sorted(b) && multiset(a) == multiset(b) && |a| > 0 && |b| > 0
    ensures a[0] == b[0]
  {
    assert a[0] in multiset(b) && b[0] in multiset(a);
    var i :| 0 <= i < |b| && b[i] == a[0];
    var j :| 0 <= j < |a| && a[j] == b[0];
    LexLeReflexive(a[0]);
    LexLeReflexive(b[0]);
    assert LexLe(b[0], a[0]) && LexLe(a[0], b[0]);
    LexLeAntisymmetric(a[0], b[0]);
  }

  /** Dropping the head of an ordered sequence keeps it ordered and removes
      one occurrence of the head. */
  lemma Tail(a: seq<string>)
    requires Sorted(a) && |a| > 0
    ensures Sorted(a[1..]) && multiset(a[1..]) == multiset(a) - multiset{a[0]} && a == [a[0]] + a[1..]
  {
    assert a == [a[0]] + a[1..];
  }

  /** The entries the classifier does not call files, in input order (the
      `d` list of `_sort_path_list`). */
  function NonFiles(s: seq<string>, isFile: string -> bool): (r: seq<string>)
    ensures forall x :: x in r ==> x in s && !isFile(x)
  {
    if s == [] then []
    else NonFiles(s[..|s| - 1], isFile) + (if isFile(s[|s| - 1]) then [] else [s[|s| - 1]])
  }

  /** The entries the classifier calls files, in input order (the `f` list). */
  function Files(s: seq<string>, isFile: string -> bool): (r: seq<string>)
    ensures forall x :: x in r ==> x in s && isFile(x)
  {
    if s == [] then []
    else Files(s[..|s| - 1], isFile) + (if isFile(s[|s| - 1]) then [s[|s| - 1]] else [])
  }

  /** Each class holds every occurrence of its members and nothing else. */
  lemma ClassCounts(s: seq<string>, isFile: string -> bool, x: string)
    ensures multiset(NonFiles(s, isFile))[x] == if isFile(x) then 0 else multiset(s)[x]
    ensures multiset(Files(s, isFile))[x] == if isFile(x) then multiset(s)[x] else 0
  {
    NonFilesCount(s, isFile, x);
    FilesCount(s, isFile, x);
  }

  lemma {:induction false} NonFilesCount(s: seq<string>, isFile: string -> bool, x: string)
    ensures multiset(NonFiles(s, isFile))[x] == if isFile(x) then 0 else multiset(s)[x]
  {
    if s != [] {
      var init, last := s[..|s| - 1], s[|s| - 1];
      NonFilesCount(init, isFile, x);
      assert s == init + [last];
      assert multiset(s) == multiset(init) + multiset{last};
      assert NonFiles(s, isFile) == NonFiles(init, isFile) + (if isFile(last) then [] else [last]);
    }
  }

  lemma {:induction false} FilesCount(s: seq<string>, isFile: string -> bool, x: string)
    ensures multiset(Files(s, isFile))[x] == if isFile(x) then multiset(s)[x] else 0
  {
    if s != [] {
      var init, last := s[..|s| - 1], s[|s| - 1];
      FilesCount(init, isFile, x);
      assert s == init + [last];
      assert multiset(s) == multiset(init) + multiset{last};
      assert Files(s, isFile) == Files(init, isFile) + (if isFile(last) then [last] else []);
    }
  }

  /** Together the two classes are a permutation of the input. */
  lemma ClassesPermutation(s: seq<string>, isFile: string -> bool)
    ensures multiset(NonFiles(s, isFile)) + multiset(Files(s, isFile)) == multiset(s)
  {
    forall x ensures (multiset(NonFiles(s, isFile)) + multiset(Files(s, isFile)))[x] == multiset(s)[x] {
      ClassCounts(s, isFile, x);
    }
  }

  /** `sorted(d) + sorted(f)`, the value `_sort_path_list` returns. */
  function DirsThenFiles(names: seq<string>, isFile: string -> bool): seq<string> {
    Sort(NonFiles(names, isFile)) + Sort(Files(names, isFile))
  }

  /** `r` is grouped at `k`: non-files sorted before position `k`, files
      sorted from `k` on. */
  predicate Grouped(r: seq<string>, k: nat, isFile: string -> bool) {
    SplitAt(r, k, isFile) && Sorted(r[..k]) && Sorted(r[k..])
  }

  /** Non-files before position `k`, files from `k` on. */
  predicate SplitAt(r: seq<string>, k: nat, isFile: string -> bool) {
    && k <= |r|
    && (forall i :: 0 <= i < k ==> !isFile(r[i]))
    && (forall i :: k <= i < |r| ==> isFile(r[i]))
  }

  /** A sequence split at `k` holds every non-file occurrence before `k` and
      every file occurrence after. */
  lemma SplitCounts(r: seq<string>, k: nat, isFile: string -> bool, x: string)
    requires SplitAt(r, k, isFile)
    ensures multiset(r[..k])[x] == if isFile(x) then 0 else multiset(r)[x]
    ensures multiset(r[k..])[x] == if isFile(x) then multiset(r)[x] else 0
  {
    var lo, hi := r[..k], r[k..];
    assert r == lo + hi;
    if isFile(x) {
      assert x !in lo by {
        forall i | 0 <= i < |lo| ensures lo[i] != x {
          assert lo[i] == r[i];
        }
      }
    } else {
      assert x !in hi by {
        forall i | 0 <= i < |hi| ensures hi[i] != x {
          assert hi[i] == r[k + i];
        }
      }
    }
  }

  /** The listing is a permutation of its input, grouped at the number of
      non-file entries. */
  lemma DirsThenFilesIsGrouped(names: seq<string>, isFile: string -> bool)
    ensures var r := DirsThenFiles(names, isFile);
      multiset(r) == multiset(names) && Grouped(r, |NonFiles(names, isFile)|, isFile)
  {
    var d, f := NonFiles(names, isFile), Files(names, isFile);
    var sd, sf := Sort(d), Sort(f);
    ClassesPermutation(names, isFile);
    assert |sd| == |multiset(d)| == |d|;
    forall x | x in sd ensures !isFile(x) {
      assert x in multiset(d);
    }
    forall x | x in sf ensures isFile(x) {
      assert x in multiset(f);
    }
    Grouping(sd, sf, isFile);
  }

  /** Sorted non-files followed by sorted files are grouped where the files
      begin. */
  lemma Grouping(sd: seq<string>, sf: seq<string>, isFile: string -> bool)
    requires Sorted(sd) && Sorted(sf)
    requires forall x :: x in sd ==> !isFile(x)
    requires forall x :: x in sf ==> isFile(x)
    ensures Grouped(sd + sf, |sd|, isFile)
  {
    var r := sd + sf;
    Parts(sd, sf);
    forall i | 0 <= i < |sd| ensures !isFile(r[i]) {
      assert r[i] == sd[i];
    }
    forall i | |sd| <= i < |r| ensures isFile(r[i]) {
      assert r[i] == sf[i - |sd|];
    }
  }

  /** The two halves of a concatenation. */
  lemma Parts<T>(a: seq<T>, b: seq<T>)
    ensures (a + b)[..|a|] == a && (a + b)[|a|..] == b
  {
  }

  /** Conversely, a permutation of the input that is grouped at some `k` IS
      the listing: the order of non-files then files, each sorted, leaves no
      choice. */
  lemma GroupedIsDirsThenFiles(names: seq<string>, isFile: string -> bool, r: seq<string>, k: nat)
    requires multiset(r) == multiset(names) && Grouped(r, k, isFile)
    ensures r == DirsThenFiles(names, isFile)
  {
    SplitClasses(names, isFile, r, k);
    IsSort(r[..k], NonFiles(names, isFile));
    IsSort(r[k..], Files(names, isFile));
    Halves(r, k);
  }

  /** A sequence is its prefix followed by its suffix. */
  lemma Halves<T>(r: seq<T>, k: nat)
    requires k <= |r|
    ensures r == r[..k] + r[k..]
  {
  }

  /** An ordered permutation of `s` is `sorted(s)`. */
  lemma IsSort(a: seq<string>, s: seq<string>)
    requires Sorted(a) && multiset(a) == multiset(s)
    ensures a == Sort(s)
  {
    SortedUnique(a, Sort(s));
  }

  /** A permutation of the input split at `k` holds the non-files before `k`
      and the files from `k` on, counted with multiplicity. */
  lemma SplitClasses(names: seq<string>, isFile: string -> bool, r: seq<string>, k: nat)
    requires multiset(r) == multiset(names) && SplitAt(r, k, isFile)
    ensures multiset(r[..k]) == multiset(NonFiles(names, isFile))
    ensures multiset(r[k..]) == multiset(Files(names, isFile))
  {
    LowClass(names, isFile, r, k);
    HighClass(names, isFile, r, k);
  }

  lemma LowClass(names: seq<string>, isFile: string -> bool, r: seq<string>, k: nat)
    requires multiset(r) == multiset(names) && SplitAt(r, k, isFile)
    ensures multiset(r[..k]) == multiset(NonFiles(names, isFile))
  {
    forall x ensures multiset(r[..k])[x] == multiset(NonFiles(names, isFile))[x] {
      NonFilesCount(names, isFile, x);
      SplitCounts(r, k, isFile, x);
    }
  }

  lemma HighClass(names: seq<string>, isFile: string -> bool, r: seq<string>, k: nat)
    requires multiset(r) == multiset(names) && SplitAt(r, k, isFile)
    ensures multiset(r[k..]) == multiset(Files(names, isFile))
  {
    forall x ensures multiset(r[k..])[x] == multiset(Files(names, isFile))[x] {
      FilesCount(names, isFile, x);
      SplitCounts(r, k, isFile, x);
    }
  }

  /** The listing depends only on which names a directory holds, never on the
      order the operating system returns them in. */
  lemma DirsThenFilesIgnoresInputOrder(a: seq<string>, b: seq<string>, isFile: string -> bool)
    requires multiset(a) == multiset(b)
    ensures DirsThenFiles(a, isFile) == DirsThenFiles(b, isFile)
  {
    DirsThenFilesIsGrouped(b, isFile);
    GroupedIsDirsThenFiles(a, isFile, DirsThenFiles(b, isFile), |NonFiles(b, isFile)|);
  }
}
