/**
  * The two builders of src/lib.rs, as recursive methods that fill a
  * `FileTree` in a loop over the directory listing. Each is proved to
  * return the tree `Scan.Walk` describes; the warnings it would print and
  * its dead `total_size` accumulator are returned as ghost outputs.
  */
module Builder {
  import opened Wrappers
  import opened Fs
  import opened Types
  import opened Scan

  /**
    * `read_files_regex(in_paths, depth, min_bytes, regex, silent)`, where
    * `read_dir(in_paths)` gives `l` and `regex(p)` is `regex.is_match(p)`.
    */
  method ReadFilesRegex(inPath: Path, l: Listing, depth: uint8, minBytes: Option<nat>,
                        regex: Path -> bool, silent: bool, rule: SizeRule)
    returns (tree: FileTree, ghost warnings: seq<Warning>, ghost totalSize: nat)
    requires depth as int + Height(l, Config(minBytes, regex, rule)) <= 255
    ensures fresh(tree) && tree.rule == rule
    ensures tree.View() == Walk(l, depth, Config(minBytes, regex, rule))
    ensures warnings == Warnings(inPath, l, regex, silent)
    ensures totalSize == LevelTotal(l, depth, Config(minBytes, regex, rule))
    decreases l
  {
    ghost var cfg := Config(minBytes, regex, rule);
    tree := new FileTree(rule);
    totalSize := 0;
    warnings := [];
    match l
    case Unreadable =>
      if !silent {
        warnings := [PermissionDenied(inPath)];
      }
    case Listed(paths) =>
      var i := 0;
      while i < |paths|
        invariant 0 <= i <= |paths|
        invariant fresh(tree) && tree.rule == rule
        invariant depth as int + EntriesHeight(paths[..i], cfg) <= 255
        invariant tree.View() == WalkEntries(paths[..i], depth, cfg)
        invariant warnings == EntriesWarnings(paths[..i], regex, silent)
        invariant totalSize == EntriesTotal(paths[..i], depth, cfg)
      {
        NextEntry(paths, i, depth, cfg, silent);
        ghost var w, added := HandlePathRegex(tree, paths[i], depth, minBytes, regex, silent);
        warnings := warnings + w;
        totalSize := totalSize + added;
        i := i + 1;
      }
      assert paths[..|paths|] == paths;
  }

  /** One turn of the `for p in paths` loop of `read_files_regex`, on entry `p`. */
  method HandlePathRegex(tree: FileTree, p: Entry, depth: uint8, minBytes: Option<nat>,
                         regex: Path -> bool, silent: bool)
    returns (ghost warnings: seq<Warning>, ghost added: nat)
    requires depth as int + EntryHeight(p, Config(minBytes, regex, tree.rule)) <= 255
    modifies tree
    ensures tree.View() == Step(old(tree.View()), p, depth, Config(minBytes, regex, tree.rule))
    ensures warnings == EntryWarnings(p, regex, silent)
    ensures added == EntryTotal(p, depth, Config(minBytes, regex, tree.rule))
    decreases p
  {
    warnings, added := [], 0;
    if !regex(p.path) {
      match p {
      case File(path, len) =>
        var fileSize := len;
        match minBytes {
          case Some(b) =>
            if fileSize >= b {
              tree.Push(path, fileSize, None, depth + 1);
            }
          case None =>
            tree.Push(path, fileSize, None, depth + 1);
        }
        added := fileSize;
      case Dir(path, listing) =>
        var subtree;
        ghost var subTotal;
        subtree, warnings, subTotal := ReadFilesRegex(path, listing, depth + 1, minBytes, regex, silent, tree.rule);
        var dirSize := subtree.fileSize;
        match minBytes {
          case Some(b) =>
            if dirSize >= b {
              tree.Push(path, dirSize, Some(subtree.View()), depth + 1);
            }
          case None =>
            tree.Push(path, dirSize, Some(subtree.View()), depth + 1);
        }
        added := dirSize;
      case NoMetadata(path) =>
        if !silent {
          warnings := [SymlinkIgnored(path)];
        }
      case Other(_) =>
      }
    }
  }

  /** `read_files(in_paths, depth, min_bytes, silent)`, where `read_dir(in_paths)` gives `l`. */
  method ReadFiles(inPath: Path, l: Listing, depth: uint8, minBytes: Option<nat>,
                   silent: bool, rule: SizeRule)
    returns (tree: FileTree, ghost warnings: seq<Warning>, ghost totalSize: nat)
    requires depth as int + Height(l, Config(minBytes, NeverExcluded, rule)) <= 255
    ensures fresh(tree) && tree.rule == rule
    ensures tree.View() == Walk(l, depth, Config(minBytes, NeverExcluded, rule))
    ensures warnings == Warnings(inPath, l, NeverExcluded, silent)
    ensures totalSize == LevelTotal(l, depth, Config(minBytes, NeverExcluded, rule))
    decreases l
  {
    ghost var cfg := Config(minBytes, NeverExcluded, rule);
    tree := new FileTree(rule);
    totalSize := 0;
    warnings := [];
    match l
    case Unreadable =>
      if !silent {
        warnings := [PermissionDenied(inPath)];
      }
    case Listed(paths) =>
      var i := 0;
      while i < |paths|
        invariant 0 <= i <= |paths|
        invariant fresh(tree) && tree.rule == rule
        invariant depth as int + EntriesHeight(paths[..i], cfg) <= 255
        invariant tree.View() == WalkEntries(paths[..i], depth, cfg)
        invariant warnings == EntriesWarnings(paths[..i], NeverExcluded, silent)
        invariant totalSize == EntriesTotal(paths[..i], depth, cfg)
      {
        NextEntry(paths, i, depth, cfg, silent);
        ghost var w, added := HandlePath(tree, paths[i], depth, minBytes, silent);
        warnings := warnings + w;
        totalSize := totalSize + added;
        i := i + 1;
      }
      assert paths[..|paths|] == paths;
  }

  /** One turn of the `for p in paths` loop of `read_files`, on entry `p`. */
  method HandlePath(tree: FileTree, p: Entry, depth: uint8, minBytes: Option<nat>,
                     silent: bool)
    returns (ghost warnings: seq<Warning>, ghost added: nat)
    requires depth as int + EntryHeight(p, Config(minBytes, NeverExcluded, tree.rule)) <= 255
    modifies tree
    ensures tree.View() == Step(old(tree.View()), p, depth, Config(minBytes, NeverExcluded, tree.rule))
    ensures warnings == EntryWarnings(p, NeverExcluded, silent)
    ensures added == EntryTotal(p, depth, Config(minBytes, NeverExcluded, tree.rule))
    decreases p
  {
    warnings, added := [], 0;
    match p {
    case File(path, len) =>
      var fileSize := len;
      match minBytes {
        case Some(b) =>
          if fileSize >= b {
            tree.Push(path, fileSize, None, depth + 1);
          }
        case None =>
          tree.Push(path, fileSize, None, depth + 1);
      }
      added := fileSize;
    case Dir(path, listing) =>
      var subtree;
      ghost var subTotal;
      subtree, warnings, subTotal := ReadFiles(path, listing, depth + 1, minBytes, silent, tree.rule);
      var dirSize := subtree.fileSize;
      match minBytes {
        case Some(b) =>
          if dirSize >= b {
            tree.Push(path, dirSize, Some(subtree.View()), depth + 1);
          }
        case None =>
          tree.Push(path, dirSize, Some(subtree.View()), depth + 1);
      }
      added := dirSize;
    case NoMetadata(path) =>
      if !silent {
        warnings := [SymlinkIgnored(path)];
      }
    case Other(_) =>
    }
  }
}
