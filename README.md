# telegram-disk-browser: the browsing core, in Dafny

telegram-disk-browser is a Telegram bot that lets one user browse a folder
tree on the host through an inline keyboard. The user opens folders, goes
back up, pages through long listings, selects files and folders, and
downloads the selection as a zip archive. This project models the core of
`bot.py`:

- the `Disk` object. Its `path` setter rebuilds the listing. `worker`
  interprets one callback string. `set_home` returns to the home folder.
  `_sort_path_list` orders a listing. `_get_size` weighs a path.
- `menu()`, which lays out the keyboard for the current state of the disk.
- the name `upload` gives the archive.

The filesystem is a value: a map from path strings to nodes, which are
files with a size or directories with a list of entry names (`FileSystem`).
`os.path.exists`, `os.path.isfile`, `os.listdir`, `os.path.getsize`,
`os.path.join` and the top-down `os.walk` are functions over that map.
Every operation takes the filesystem as a parameter, because it can change
between two callbacks. The configured home path and the working directory
of the process are constants of a `Disk`.

The model is layered:

- `PyStrings` and `PyLists` give the Python string and list operations the
  code relies on. These are `in`, `find`, `split(sep)[-1]`, `[::-1]`,
  slices with negative bounds, `int()`, `str()`, the order `sorted` uses,
  negative indexing, `list.remove` and `list.index`.
- `Paths` covers `os.path.join`, the parent slice that `cd//..` uses and
  the last path segment.
- `Sorting` is `_sort_path_list` as a function.
- `Callbacks` holds the callback strings and how `worker` reads them back.
- `Navigation` is the behaviour of `Disk` as functions on a snapshot
  `View` of its six attributes. `Enter` is the setter. `Step` is `worker`:
  decode the key, then `Apply` the action.
- `Browser.Disk` is a class with those attributes as fields. Its methods
  update them in place, exactly as the source does. Each method is proved
  to leave the object in the state the `Navigation` function gives, and to
  keep `Valid()`: listing names are distinct, the two listings have the
  same length, and no path is selected twice.
- `Keyboard` is `menu()`. `Upload` is the archive name.

Exceptions are values: `Errors.Failure` has PathMissing (the setter's
OSError), NotADirectory, IndexError and ValueError. `worker` returns
`Result<bool>`, either the boolean it returns or the exception it raises.

The model follows the code where the code differs from the design it
describes:

- The design says a listing puts every directory before every file. The
  code classifies with `os.path.isfile` on the bare names `os.listdir`
  returns, so the names resolve against the working directory of the
  process, not against the listed folder. `Navigation.RelativeIsFile` models
  exactly that.
  - `ListingFromInside` proves the design's order when the process runs in
    the listed folder.
  - `ListingFromElsewhere` gives a tree where a directory is listed after a
    file.
- The setter assigns `__path` before `os.listdir` runs. Entering a file
  therefore raises NotADirectoryError with only the path replaced.
- `cd//..` computes the parent with a string slice. A path without '/'
  gives the empty string, which does not exist, so it raises OSError.
- `down//n` adds `n` unchecked. A negative `n` can make the cursor
  negative; the keyboard then follows Python's slice rules.

## Model

| member | source | states |
|---|---|---|
| Browser.Disk.constructor | bot.py:193-194 | a new disk sits in the home folder with a fresh listing, no selection and cursor 0, and satisfies the invariant |
| Browser.Disk.SetPath | bot.py:140-165 | the path setter, updating the fields in place: the new state and outcome are those of `Enter` (missing path: OSError and no change; same non-home path: no change; file: NotADirectoryError with only the path replaced; otherwise a fresh listing, with selection, size and cursor reset); the invariant is kept |
| Browser.Disk.SetHome | bot.py:247-249 | `set_home` is the setter applied to the home path |
| Browser.Disk.Worker | bot.py:197-245 | `worker(key)` updates the fields to the state `Step` gives and returns the same value or exception; the invariant is kept |
| Browser.Disk.ToggleEntry | bot.py:207-216 | the `select//` branch once the index is read ends in the state `Apply` gives for `Select(i)`: IndexError and no change for a bad index, otherwise the joined path appended when absent or its first occurrence removed, and the size recomputed; the invariant is kept |
| Browser.Disk.OpenParent | bot.py:233-234 | the `cd//..` branch ends in the state `Apply` gives for `CdParent`: the setter on the parent slice, with its exception propagated |
| Browser.Disk.OpenEntry | bot.py:236-243 | the `cd//k` branch ends in the state `Apply` gives for `Cd(k)`: IndexError for a bad index, False and no change for a file, otherwise the setter on the joined path |
| Browser.Disk.SortPathList | bot.py:262-270 | the loop that splits names into non-files and files, followed by `sorted(d) + sorted(f)`, returns `DirsThenFiles` of the names |
| Browser.Disk.GetSize | bot.py:272-281 | `_get_size`: a file's own size, or the sum of the sizes of the files `os.walk` reports, equals `TreeSize`, the weight of everything below the path (0 for a missing path) |
| Browser.Disk.SizeOfSelection | bot.py:215-216 | the sum of `_get_size` over the selection equals `SelectionSize` |
| Sorting.Sort | bot.py:270 | `sorted` returns an ordered permutation of its input |
| Sorting.SortedUnique | bot.py:270 | two ordered permutations of the same list are equal, so `sorted` has exactly one result |
| Sorting.DirsThenFilesIsGrouped | bot.py:262-270 | the listing is a permutation of the names: non-files first in sorted order, then files in sorted order, split at the number of non-files |
| Sorting.GroupedIsDirsThenFiles | bot.py:262-270 | conversely, any permutation grouped that way is the listing |
| Sorting.DirsThenFilesIgnoresInputOrder | bot.py:154 | the listing depends only on which names `os.listdir` returns, not on their order |
| Navigation.FreshListing | bot.py:152-161 | after a switch to a folder: the path is that folder; `relpathlist` is a grouped permutation of its entries; `pathlist[i]` is `os.path.join(folder, relpathlist[i])`; selection, size and cursor are reset; the invariant holds |
| Navigation.ListingFromInside | bot.py:262-270 | when the process runs in the listed folder, no directory is listed after a file |
| Navigation.ListingFromElsewhere | bot.py:262-270 | a concrete tree, seen from `/`, in which folder `/d` lists its subdirectory `b` after its file `a` |
| Navigation.EnterOutcomes | bot.py:140-165 | the setter's four outcomes, each stated as an if-and-only-if on the target, with the state each one leaves |
| Navigation.SetHomeResets | bot.py:247-249 | `set_home` always rebuilds the state when home is a folder, clearing the selection even when already home |
| Navigation.EnterIdempotent | bot.py:144 | setting the same path twice in a row is the same as setting it once |
| Navigation.StepKeepsInv | bot.py:197-245 | every call of `worker` keeps the invariant |
| Navigation.StepErrors | bot.py:201-239 | ValueError happens exactly when `int()` fails on the key's argument. Every other exception leaves the state unchanged, except NotADirectoryError. Over a tree of regular files and folders, that one arises only from `cd//..` onto a file and replaces only the path |
| Navigation.StepIndexErrors | bot.py:203-237 | IndexError happens exactly when a `select//` or `cd//` key carries an index outside `-len <= i < len` of `relpathlist`; it leaves the state unchanged |
| Navigation.StepKeepsSize | bot.py:201-245 | over an unchanged tree, every call of `worker` keeps `sizeofselected` equal to the recursive size of the selected paths |
| Navigation.StepFalseOnFiles | bot.py:236-243 | `worker` returns False exactly for `cd//k` on an entry that is a file, and then changes nothing |
| Navigation.SelectToggles | bot.py:203-216 | `select//k` flips the membership of entry k's joined path and of no other path. The selection stays duplicate-free. The size becomes the sum over the selection. Path, listing and cursor are untouched |
| Navigation.SelectTwiceRestores | bot.py:209-216 | selecting an entry twice restores the selection as a multiset; the size becomes the size of the original selection, which is the original size whenever that was current; if the entry was not selected before, the list itself is restored |
| Navigation.ScrollKeys | bot.py:218-228 | `up//n` moves the cursor back by n but clamps at 0; `down//n` adds n; nothing else changes |
| Navigation.ScrollAnyAmount | bot.py:218-228 | for any amount `int()` reads, negative ones included, `up//n` sets the cursor to `cursor - n`, or to 0 when that is not positive, so it is never negative; `down//n` adds n unclamped; nothing else changes and the result is True |
| Navigation.DownThenUp | bot.py:218-228 | `down//n` followed by `up//n` restores the state when the cursor is not negative |
| Navigation.ParentKeyStep | bot.py:233-234 | `cd//..` hands the setter the prefix before the last '/'; a path without '/', or whose only '/' is the first character, slices to "", raises OSError and changes nothing |
| Navigation.CdIntoDirectory | bot.py:236-239 | `cd` onto a directory entry other than the current path switches to it with a fresh listing |
| Navigation.CdThenParent | bot.py:233-239 | from a folder whose listing is current, entering subfolder k and then pressing `cd//..` returns to the folder with a fresh listing |
| Callbacks.Decode | bot.py:201-237 | the key's argument fails to parse only as ValueError; a key matching none of `select//`, `up//`, `down//`, `cd//` is ignored, and only such a key |
| Callbacks.DecodeSelectKey | bot.py:203-207 | the `select//k` that `menu()` emits is read back as "toggle entry k" |
| Callbacks.DecodeCdKey | bot.py:230-237 | `cd//k` is read back as "enter entry k" |
| Callbacks.DecodeParentKey | bot.py:230-234 | `cd//..` is read back as "go to the parent" |
| Callbacks.DecodeScrollKeys | bot.py:218-228 | `up//n` and `down//n` are read back as scrolling by n |
| Callbacks.DecodeUploadKey | bot.py:304 | `upload//` matches none of `worker`'s patterns |
| PyStrings.ParseNatToString | bot.py:207 | `int(str(n)) == n` for every non-negative n |
| PyStrings.LastPieceIsSuffix | bot.py:201 | `key.split('//')[-1]` is a suffix without `//`; it is the whole key when there is no `//`, and otherwise follows an occurrence of `//` |
| PyStrings.LastPieceOfSplit | bot.py:201 | skipping past each `//` in turn ends at the last element of `key.split('//')` |
| PyStrings.FindFirst | bot.py:234 | `find` reports the first occurrence: none comes before it, and there is none when it returns -1 |
| PyStrings.FindCharFirst | bot.py:234 | `find` of one character is the first index holding it, and -1 exactly when it does not occur |
| PyLists.RemoveFirst | bot.py:214 | `list.remove(x)` drops exactly the first occurrence of x |
| PyLists.IndexOf | bot.py:317 | `list.index(x)` is the first position holding x |
| Paths.ParentSliceIsPrefixBeforeLastSlash | bot.py:234 | the parent slice is the prefix strictly before the last '/', or empty when there is none |
| Paths.ParentOfJoin | bot.py:234-239 | the parent slice of `os.path.join(dir, n)` is `dir`, and its last segment is `n` |
| FileSystem.WalkSizeIsTreeSize | bot.py:277-280 | summing the sizes of the files `os.walk` reports gives the weight of the directory |
| FileSystem.MoveToEndKeepsSize | bot.py:212-216 | moving one path of a selection to its end keeps the weight |
| FileSystem.SelectionSizeOrderFree | bot.py:215-216 | two selections holding the same paths the same number of times, in any order, have the same weight |
| Keyboard.Window | bot.py:308-314 | the pairs the loop of `menu()` walks are consecutive entries from where the slice starts; from a cursor that is not negative, as many as remain, up to eleven |
| Keyboard.WindowBounded | bot.py:308-314 | for every cursor, negative ones included, the loop walks at most eleven pairs |
| Keyboard.WindowFromEnd | bot.py:308-314 | a cursor below -11 but not below minus the length gives the eleven consecutive entries starting at `len + cursor` |
| Keyboard.NegativeCursorWindow | bot.py:308-314 | a cursor between -11 and -1 over at least eleven entries gives an empty window |
| Keyboard.PageRows | bot.py:301-336 | the loop appends, after the top row, one entry row for each of the first ten pairs and the `down//10` row in place of an eleventh |
| Keyboard.Menu | bot.py:283-346 | the rows, in order: the top row `[cd//.., upload//]`; the `up//10` row second exactly when cursor > 0; one entry row for each of the first ten pairs of the window; the `down//10` row last exactly when an eleventh pair exists |
| Keyboard.PageSize | bot.py:308-315 | from a cursor that is not negative, a page shows min(10, len − cursor) entries, and the `down//10` row appears exactly when len > cursor + 10 |
| Keyboard.EntryCallbacks | bot.py:315-327 | the j-th entry row shows entry cursor+j with a file or folder icon; its button reads "Selected" exactly when the path is selected; its callbacks are read back as `Cd(cursor+j)` and `Select(cursor+j)` |
| Keyboard.FixedRowCallbacks | bot.py:301-343 | "back" is read back as going to the parent, "scroll up/down" as moving by 10, and "Download" is not acted on by `worker` |
| Upload.ZipName | bot.py:410-415 | there is no archive without a selection. Otherwise the name is ".zip" appended to the longest '/'-free suffix of the single selected path, or of the current path when several are selected |
| Upload.LastSegmentUnique | bot.py:412-414 | that suffix is unique |
| Upload.SingleSelectionZip | bot.py:411-415 | a single selected entry n of a folder gives `n.zip` |
| Upload.SeveralSelectionsZip | bot.py:413-415 | several selections in folder `parent/name` give `name.zip` |
| Upload.TrailingSlashZip | bot.py:414-415 | with several selections, a current path ending in '/' names the archive just ".zip" |
| Upload.ZipAfterOneSelect | bot.py:410-415 | selecting one entry from an empty selection and downloading names the archive after that entry |

## Left out

- Configuration loading, the Telegram handlers, message texts, the
  human-readable size text, the emoji, and printing. Button texts are
  symbolic `Keyboard.Label` values.
- Writing the zip archive and sending it; the 49 MB size check in
  `upload` (floating-point megabytes); `os.path.getsize` on the archive.
- `_update_path` (bot.py:251-260). Nothing calls it.
- Any boundary at the home folder. The source has none: `cd//..` can leave
  home.
- Concurrency and filesystem changes during a call. The filesystem is
  fixed within one operation. Symbolic links, permissions, and path
  normalisation (`..`, `//`) are not modelled.
- `int()` accepts an optional sign and ASCII digits only. Surrounding
  whitespace, underscores and non-ASCII digits, which Python also accepts,
  are not modelled.
- `os.walk` errors and `os.path.getsize` on vanished files.
- Only regular files and folders are modelled. A FIFO, socket or device
  entry is not a file to `os.path.isfile`, so `cd//k` onto one would make
  `os.listdir` raise NotADirectoryError (bot.py:154, bot.py:238-239).
  That is why Navigation.StepErrors can confine NotADirectoryError to
  `cd//..`.
- Browser.Disk.constructor: requires the home path to be an existing
  directory. The source would raise from the setter in `__init__`, which a
  Dafny constructor cannot do.
- Keyboard.Menu: takes `os.path.isfile` as the classifier parameter
  `isFile`. The process sees it as `Navigation.RelativeIsFile(fs, cwd)`.
  Menu requires `pathlist` and `relpathlist` to have the same length, which
  every reachable state satisfies.
