/** The inline keyboard `menu()` builds from the state of the disk: a top
    row with "back" and "Download", an optional "scroll up" row, one row
    per visible entry (open it, select it), and an optional "scroll down"
    row.  Emoji and button texts become `Label` values. */
module Keyboard {
  import opened PyStrings
  import opened PyLists
  import opened Errors
  import opened Callbacks
  import opened Navigation

  /** The most entries one page shows (`menu_size`). */
  const MenuSize := 10

  datatype Icon = FileIcon | FolderIcon

  datatype Label =
    | Ellipsis                        // '...'
    | Download                        // download arrow + 'Download'
    | Entry(icon: Icon, name: string) // file or folder icon + the name
    | Mark(selected: bool)            // 'Select', or radio button + 'Selected'

  datatype Button = Button(face: Label, callback: string)

  type Row = seq<Button>

  function Min(a: int, b: int): int { if a < b then a else b }
  function Max(a: int, b: int): int { if a < b then b else a }

  const TopRow: Row := [Button(Ellipsis, ParentKey), Button(Download, UploadKey)]
  const UpRow: Row := [Button(Ellipsis, UpKey(MenuSize))]
  const DownRow: Row := [Button(Ellipsis, DownKey(MenuSize))]

  /** `zip(pathlist[cursor:cursor+11], relpathlist[cursor:cursor+11],
      range(cursor, len(pathlist)))`, without the counter: the pairs the
      loop of `menu()` walks over.  They are consecutive entries starting
      where the slice starts; from a cursor that is not negative, that is
      the cursor, and there are as many as remain, up to eleven. */
  function Window(v: View): (z: seq<(string, string)>)
    requires |v.pathlist| == |v.relpathlist|
    ensures var lo := SliceBound(v.cursor, |v.pathlist|);
      && lo + |z| <= |v.pathlist|
      && forall j :: 0 <= j < |z| ==> z[j] == (v.pathlist[lo + j], v.relpathlist[lo + j])
    ensures v.cursor >= 0 ==> |z| == Min(MenuSize + 1, Max(0, |v.pathlist| - v.cursor))
  {
    var to := v.cursor + MenuSize + 1;
    var ps := Slice(v.pathlist, v.cursor, to);
    var rs := Slice(v.relpathlist, v.cursor, to);
    var n := Min(|ps|, Max(0, |v.pathlist| - v.cursor));
    seq(n, j requires 0 <= j < n => (ps[j], rs[j]))
  }

  /** The row of one entry: a button that opens it, labelled with a file
      icon when `os.path.isfile(path)` holds and a folder icon otherwise,
      and a button that selects it, marked when the path is selected.  Both
      carry the entry's position `relpathlist.index(relpath)`.  `isFile` is
      `os.path.isfile` as the process sees it, `RelativeIsFile(fs, cwd)`. */
  function EntryRow(isFile: string -> bool, v: View, path: string, relpath: string): Row
    requires relpath in v.relpathlist
  {
    var index := IndexOf(v.relpathlist, relpath);
    [Button(Entry(if isFile(path) then FileIcon else FolderIcon, relpath), CdKey(index)),
     Button(Mark(path in v.selected), SelectKey(index))]
  }

  /** Every pair of the window names an entry of the listing. */
  lemma WindowListed(v: View)
    requires |v.pathlist| == |v.relpathlist|
    ensures forall j :: 0 <= j < |Window(v)| ==> Window(v)[j].1 in v.relpathlist
  {
    var z := Window(v);
    var lo := SliceBound(v.cursor, |v.pathlist|);
    forall j | 0 <= j < |z| ensures z[j].1 in v.relpathlist {
      assert z[j].1 == v.relpathlist[lo + j];
    }
  }

  /** `list.insert(1, x)` on a list that is not empty. */
  lemma InsertSecond<T>(s: seq<T>, x: T)
    requires |s| > 0
    ensures var r := s[..1] + [x] + s[1..];
      |r| == |s| + 1 && r[0] == s[0] && r[1] == x && forall j :: 1 <= j < |s| ==> r[j + 1] == s[j]
  {
  }

  /** The number of rows before the entries: the top row, and the "scroll
      up" row when the cursor is past the start. */
  function Lead(v: View): nat { if v.cursor > 0 then 2 else 1 }

  /** The loop of `menu()` over the window `z`: the top row, then a row for
      each of the first ten pairs, then the "scroll down" row in place of an
      eleventh. */
  method PageRows(isFile: string -> bool, v: View, z: seq<(string, string)>) returns (rows: seq<Row>)
    requires forall j :: 0 <= j < |z| ==> z[j].1 in v.relpathlist
    ensures |rows| == 1 + Min(|z|, MenuSize) + (if |z| > MenuSize then 1 else 0)
    ensures rows[0] == TopRow
    ensures forall j :: 0 <= j < Min(|z|, MenuSize) ==> rows[1 + j] == EntryRow(isFile, v, z[j].0, z[j].1)
    ensures |z| > MenuSize ==> rows[|rows| - 1] == DownRow
  {
    rows := [TopRow];
    var k := 0;
    while k < |z|
      invariant 0 <= k <= |z| && k <= MenuSize
      invariant |rows| == 1 + k && rows[0] == TopRow
      invariant forall j :: 0 <= j < k ==> rows[1 + j] == EntryRow(isFile, v, z[j].0, z[j].1)
    {
      var (path, relpath) := z[k];
      var it := v.cursor + k;
      if it < v.cursor + MenuSize {
        rows := rows + [EntryRow(isFile, v, path, relpath)];
      } else {
        rows := rows + [DownRow];
        break;
      }
      k := k + 1;
    }
  }

  /** `menu()` for the disk state `v`, where `isFile` is `os.path.isfile`
      as the process sees it: the top row, the "scroll up" row exactly when
      the cursor is positive, a row for each of the first ten pairs of the
      window, and the "scroll down" row exactly when the window holds an
      eleventh. */
  method Menu(isFile: string -> bool, v: View) returns (rows: seq<Row>)
    requires |v.pathlist| == |v.relpathlist|
    ensures |rows| == Lead(v) + Min(|Window(v)|, MenuSize) + (if |Window(v)| > MenuSize then 1 else 0)
    ensures rows[0] == TopRow
    ensures v.cursor > 0 ==> rows[1] == UpRow
    ensures forall j :: 0 <= j < Min(|Window(v)|, MenuSize) ==>
      Window(v)[j].1 in v.relpathlist &&
      rows[Lead(v) + j] == EntryRow(isFile, v, Window(v)[j].0, Window(v)[j].1)
    ensures |Window(v)| > MenuSize ==> rows[|rows| - 1] == DownRow
  {
    var z := Window(v);
    WindowListed(v);
    rows := PageRows(isFile, v, z);
    if v.cursor > 0 {
      InsertSecond(rows, UpRow);
      rows := rows[..1] + [UpRow] + rows[1..];
    }
  }

  /** From a cursor that is not negative, the page shows ten entries or as
      many as remain, and the "scroll down" row appears exactly when
      entries remain beyond the page. */
  lemma PageSize(v: View)
    requires |v.pathlist| == |v.relpathlist| && v.cursor >= 0
    ensures Min(|Window(v)|, MenuSize) == Min(MenuSize, Max(0, |v.pathlist| - v.cursor))
    ensures |Window(v)| > MenuSize <==> |v.pathlist| > v.cursor + MenuSize
  {
  }

  /** Whatever the cursor, the loop of `menu()` walks at most eleven pairs. */
  lemma WindowBounded(v: View)
    requires |v.pathlist| == |v.relpathlist|
    ensures |Window(v)| <= MenuSize + 1
  {
  }

  /** A cursor scrolled back further than eleven, but not past minus the
      length, counts from the end: the window is the eleven entries starting
      at `len + cursor`, so the page shows ten of them and "scroll down". */
  lemma WindowFromEnd(v: View)
    requires |v.pathlist| == |v.relpathlist|
    requires -|v.pathlist| <= v.cursor < -(MenuSize + 1)
    ensures var lo := |v.pathlist| + v.cursor;
      && |Window(v)| == MenuSize + 1
      && forall j :: 0 <= j < MenuSize + 1 ==> Window(v)[j] == (v.pathlist[lo + j], v.relpathlist[lo + j])
  {
    var n := |v.pathlist|;
    assert SliceBound(v.cursor, n) == n + v.cursor;
    assert SliceBound(v.cursor + MenuSize + 1, n) == n + v.cursor + MenuSize + 1;
  }

  /** A cursor scrolled back by at most eleven past the top, over at least
      eleven entries, slices from near the end to near the start: the page
      shows no entry and no "scroll down" row. */
  lemma NegativeCursorWindow(v: View)
    requires |v.pathlist| == |v.relpathlist|
    requires -(MenuSize + 1) <= v.cursor < 0 && |v.pathlist| >= MenuSize + 1
    ensures Window(v) == []
  {
    var n := |v.pathlist|;
    assert SliceBound(v.cursor, n) == n + v.cursor;
    assert SliceBound(v.cursor + MenuSize + 1, n) == v.cursor + MenuSize + 1;
  }

  /** From a cursor that is not negative, row `j` of the entries shows entry
      `cursor + j` and, the names being distinct, both of its buttons act on
      that entry: `worker` reads them back as entering and toggling it. */
  lemma EntryCallbacks(isFile: string -> bool, v: View, j: nat)
    requires Inv(v) && v.cursor >= 0
    requires j < Min(|Window(v)|, MenuSize)
    ensures var row := EntryRow(isFile, v, Window(v)[j].0, Window(v)[j].1);
      && row[0].face == Entry(if isFile(v.pathlist[v.cursor + j]) then FileIcon else FolderIcon,
                              v.relpathlist[v.cursor + j])
      && row[1].face == Mark(v.pathlist[v.cursor + j] in v.selected)
      && Decode(row[0].callback) == Ok(Cd(v.cursor + j))
      && Decode(row[1].callback) == Ok(Select(v.cursor + j))
  {
    var i := v.cursor + j;
    assert SliceBound(v.cursor, |v.pathlist|) == v.cursor;
    IndexOfUnique(v.relpathlist, i);
    DecodeCdKey(i);
    DecodeSelectKey(i);
  }

  /** The fixed rows: "back" goes to the parent, "scroll up" and "scroll
      down" move by a page, and "Download" is not a callback `worker` acts
      on. */
  lemma FixedRowCallbacks()
    ensures Decode(TopRow[0].callback) == Ok(CdParent)
    ensures Decode(TopRow[1].callback) == Ok(Ignore)
    ensures Decode(UpRow[0].callback) == Ok(Up(MenuSize))
    ensures Decode(DownRow[0].callback) == Ok(Down(MenuSize))
  {
    DecodeParentKey();
    DecodeScrollKeys(MenuSize);
    DecodeUploadKey();
  }
}
