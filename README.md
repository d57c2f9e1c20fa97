# tin-summer directory walk, modelled in Dafny

tin-summer reports disk usage. Its core is in `src/lib.rs`: two builders,
`read_files` and `read_files_regex`. Each reads one directory and builds a
`FileTree` from it. For every entry of the listing, the walk does one of
five things:

- it skips the entry, when the exclusion regex matches its path
  (`read_files_regex` only);
- it drops the entry, when `fs::metadata` fails, with a "symlink" warning;
- it ignores the entry silently, when it is neither a file nor a directory;
- it pushes a file record, when the file's length meets `min_bytes`;
- it recurses into a directory, then pushes the directory with its subtree
  when the subtree's `file_size` meets `min_bytes`.

Every push and every recursive call uses depth `depth + 1`. An unreadable
directory gives a new, empty tree and a "permission denied" warning.

The model replaces the filesystem by a value:

- `Fs.Listing` is what `read_dir` returns: `Unreadable`, or `Listed`
  followed by the entries;
- `Fs.Entry` is what `metadata` says of an entry: `File(path, len)`,
  `Dir(path, listing)`, `NoMetadata(path)` or `Other(path)`.

The regex is a predicate on paths.

Modules:

- `Fs` and `Wrappers` hold the input types.
- `Types` holds `FileTree`. It is a class with `fileSize` and the
  sequence of records pushed into it. A record is the arguments of one
  `push`: path, size, optional subtree, depth.
- `Scan` is the walk as functions. `Walk` handles a listing, `WalkEntries`
  is the loop after a prefix of the listing, and `Step` is one turn of the
  loop. `Warnings` is the sequence of warnings printed, and `LevelTotal` is
  the final value of the dead local `total_size`.
- `Builder` holds the two builders as recursive methods. Each loops over the
  listing, fills a fresh `FileTree`, and is proved to return the tree
  `Walk` gives. `ReadFiles` uses a test that never matches;
  `ReadFilesRegex` uses the regex. The body of the `for p in paths` loop is a
  method of its own (`HandlePath`, `HandlePathRegex`), which keeps each
  proof small.
- `ScanProperties` proves what the walk promises, for every input.

`src/types.rs` is not part of this model. So it is not known how
`FileTree::new` sets `file_size`, or how `push` changes it. The model
therefore takes a parameter, `SizeRule(initial, grow)`. A new tree has
`file_size == initial`. A push of a record of size `s` sets `file_size` to
`grow(file_size, s)`. A directory's size is the observed `file_size` of its
subtree (`src/lib.rs:55`). Everything about which entries are pushed, with
what depth and subtree, and about exclusion and warnings, holds for every
rule. The size-sum lemmas name their assumption explicitly as
`IsAdditive(rule)`: a new tree has size 0, and `push` adds the pushed size.

Remarks on the code as written:

- A directory's size is often described as the sum of the sizes of its
  retained children. The code does not compute that sum itself: it reads
  the subtree's `file_size`, which `push` maintains in `src/types.rs`. The
  model follows the code, so the sum holds only under the additive rule.
- The local `total_size` is summed but never returned (`src/lib.rs:75`). The
  returned size is `FileTree`'s own `file_size`. Whatever `push` does,
  `total_size` is at least the sum of the sizes pushed at that level, and
  equal to it without a threshold (`LevelTotal`). Under the additive rule,
  `LevelTotalBoundsSize` and `NothingDroppedTotalIsSize` show that the two
  differ only when the threshold drops a file or directory.
- Under the additive rule, a directory below the threshold holds no record at
  all (`DroppedDirectoryIsEmpty`). Every record a thresholded walk keeps is
  at least the threshold, and the directory's size is their sum. So dropping
  a small directory never hides a large descendant, unless `push` does not
  add sizes.

## Model

| member | source | states |
|---|---|---|
| Builder.ReadFilesRegex | src/lib.rs:78-129 | returns a fresh tree equal to `Walk` of the listing with the regex as exclusion test; the warnings it prints are `Warnings` of the listing; its dead `total_size` ends as `LevelTotal`; an unreadable listing gives the new empty tree and one "permission denied" warning unless silent |
| Builder.HandlePathRegex | src/lib.rs:84-122 | one loop turn: a matched path changes nothing and warns nothing; otherwise the tree becomes `Step` of the old tree, a failed metadata read adds one warning unless silent, and `total_size` grows by the file or directory size, kept or not |
| Builder.ReadFiles | src/lib.rs:28-76 | as `ReadFilesRegex`, with an exclusion test that matches nothing |
| Builder.HandlePath | src/lib.rs:34-69 | as `HandlePathRegex`, with no exclusion check |
| Types.FileTree.constructor | src/lib.rs:29 | `FileTree::new()` has no records and the rule's initial `file_size` |
| Types.FileTree.Push | src/lib.rs:43-62 | a push appends exactly one record (path, size, subtree, depth) and updates `file_size` by the rule |
| Scan.Walk | src/lib.rs:78-129 | an unreadable directory gives a tree with no records; a readable one gives at most one record per entry; a tree with no records keeps the `file_size` of `FileTree::new()` (what each record holds is `WalkConforms`) |
| Scan.WalkEntries | src/lib.rs:82-124 | after the loop has handled a prefix of the listing, the tree holds at most one record per handled entry, and keeps the `file_size` of `FileTree::new()` while nothing has been pushed |
| Scan.Step | src/lib.rs:87-121 | one loop turn adds at most one record, and `file_size` changes only when it adds one |
| Scan.StepAppendsOneRecord | src/lib.rs:87-121 | one loop turn keeps every earlier record, in place, and appends at most one; when it appends none the tree, `file_size` included, is unchanged; an appended record is for this entry, which is a file or directory the exclusion test does not match, at `depth + 1` and at or above `min_bytes` |
| Scan.Warnings | src/lib.rs:119-126 | no printed warning names a path the exclusion test matches, except the "permission denied" warning for the starting directory, whose path is never tested |
| Scan.LevelTotal | src/lib.rs:30-64 | whatever `push` does to `file_size`, the dead `total_size` is at least the sum of the sizes pushed at this level, and equal to it without a threshold |
| Scan.StepSum | src/lib.rs:39-64 | a record pushed for an entry has exactly the size that entry adds to `total_size`; without a threshold, every entry that adds anything to `total_size` is pushed |
| Scan.EntriesHeight | src/lib.rs:43-62 | the depth a listing needs bounds the depth each entry needs; callers keep `depth + Height <= 255`, so the `u8` `depth + 1` never overflows |
| ScanProperties.Admitted | src/lib.rs:33-65 | the admitted entries are a subsequence of the listing (same order, each at most once) holding every entry of the listing that is not excluded, is a file or directory, and is at or above the threshold, and no other entry |
| ScanProperties.WalkEntriesShape | src/lib.rs:33-65 | the records of the tree are exactly the records of the admitted entries, once each, in listing order; the tree's size is what pushing them into a new tree gives |
| ScanProperties.NoThresholdAdmitsEligible | src/lib.rs:39-63 | with `min_bytes = None`, an entry is admitted if and only if it is a file or a directory that is not excluded |
| ScanProperties.NoThresholdPushesEveryEntry | src/lib.rs:33-63 | with `min_bytes = None`, every file and directory whose metadata is read is pushed exactly once, in listing order, and nothing else is |
| ScanProperties.BelowThresholdDirectoryDropped | src/lib.rs:54-60 | a directory whose subtree size is below the threshold, wherever it stands in the listing, leaves the tree exactly as if the listing did not contain it, whatever the recursion built under it |
| ScanProperties.WalkConforms | src/lib.rs:41-62 | at every level of the returned tree: each record has depth one more than its parent level, is not excluded, meets the threshold, and a directory record carries its subtree's size and a subtree that conforms one level deeper |
| ScanProperties.WalkEntriesConforms | src/lib.rs:33-65 | the same, for the loop after any prefix of the listing |
| ScanProperties.ExclusionIsPruning | src/lib.rs:85-122 | walking with the regex gives the same tree and warnings as walking, with no exclusion, the listing with every matched entry removed at every depth: a matched entry is never stat'ed, recursed into, pushed or warned about, and the regex applies unchanged at every depth |
| ScanProperties.EntriesExclusionIsPruning | src/lib.rs:83-123 | the same, for the loop over any listing |
| ScanProperties.NeverMatchingRegexIsReadFiles | src/lib.rs:78-129 | a regex that matches no path of the walked tree gives the same tree and the same warnings as `read_files` |
| ScanProperties.SilentPrintsNothing | src/lib.rs:67-73 | with `silent`, no warning at all is printed at any depth (and the tree never depends on `silent`) |
| ScanProperties.SizeIsDiskUsage | src/lib.rs:39-65 | under the additive rule, the tree's size is at most the bytes of the reachable, non-excluded files below the directory, and exactly those bytes without a threshold |
| ScanProperties.ThresholdNeverIncreasesSize | src/lib.rs:41-60 | under the additive rule, a threshold never makes the tree's size larger than without one |
| ScanProperties.DroppedDirectoryIsEmpty | src/lib.rs:54-60 | under the additive rule, a directory whose size is below the threshold has no records at all |
| ScanProperties.LevelTotalBoundsSize | src/lib.rs:30-64 | under the additive rule, the dead `total_size` is at least the tree's size, and equal to it without a threshold |
| ScanProperties.NothingDroppedTotalIsSize | src/lib.rs:41-64 | under the additive rule, when every file and directory that is not excluded meets the threshold, the dead `total_size` equals the tree's size |

## Left out

- `fs::read_dir` and `fs::metadata` are filesystem I/O. They are replaced by the `Listing` and `Entry` values given to the builders.
- `fs::metadata` follows symbolic links, so a link to a directory is walked as a directory. Through a link cycle the source descends until the operating system refuses to resolve the ever longer path (on Linux after 40 links, `ELOOP`); `fs::metadata` then fails and the entry is dropped with a "symlink" warning. That unfolding is finite and an `Entry` value can describe it, but the model does not derive it from a cyclic filesystem: the input is the already unfolded listing.
- `println!` and the `colored` warnings are console output. They are modelled only as a ghost sequence of tagged `Warning` events.
- The `regex` crate (`Regex::new`, `is_match`) is a foreign library. Matching is an arbitrary predicate on the path string.
- `is_artifact` is a thin wrapper over `Regex::is_match`. Its default pattern has an unclosed group, so building it would panic. It has no behaviour of its own to model.
- The panics of `p.unwrap()` on a bad directory entry and of `expect` on a non-UTF-8 path are not modelled. Every entry of a `Listing` has a path, already a string.
- The internals of `FileTree::new`, `FileTree::push` and `FileSize::add` are in `src/types.rs`, which is not part of this model. The `SizeRule` parameter stands for their effect on `file_size`. The model also assumes three things about that file: `FileSize::new` keeps its argument unchanged (`src/lib.rs:40`, `42`, `57`); `>=` on `FileSize` is the order of the byte counts; and what `push` does to `file_size` depends only on the old `file_size` and the pushed size, not on the path, the subtree or the depth.
- `push` is given `Some(&mut subtree)`. A record keeps the subtree as a value, so any change `push` makes to the subtree object is not modelled. The subtree is dropped right after the push, so no later behaviour depends on it.
- `FileSize` and `min_bytes` are `u64`. The model uses unbounded naturals. The dead `total_size` is summed exactly, without `u64` overflow.
- Builder.ReadFilesRegex and Builder.ReadFiles: each requires `depth + Height(l) <= 255`. Beyond that depth the source's `u8` `depth + 1` would overflow, a panic in debug builds and wrap-around in release builds; that behaviour is not modelled.
- The `parser` module is not part of this model.
