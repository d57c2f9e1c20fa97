/**
  * The directory walk of `read_files` and `read_files_regex`, as functions.
  *
  * One walk covers both builders: `read_files_regex` skips every entry whose
  * path the regex matches, and `read_files` is the same walk with a test
  * that matches nothing. `Walk` reads one directory listing, `WalkEntries`
  * is the `for p in paths` loop after it has seen a prefix of the listing,
  * and `Step` is one turn of that loop.
  */
module Scan {
  import opened Wrappers
  import opened Fs
  import opened Types

  /** What a builder is given besides the directory and the depth. */
  datatype Config = Config(
    minBytes: Option<nat>,      // `min_bytes`
    excluded: Path -> bool,     // `regex.is_match` on the path string
    rule: SizeRule              // what FileTree does with sizes
  )

  /** The exclusion test of `read_files`, which has none. */
  const NeverExcluded: Path -> bool := (p: Path) => false

  /** The threshold test: with `Some(b)`, a size is kept when it is at least `b`. */
  predicate AtLeast(size: nat, minBytes: Option<nat>) {
    match minBytes
    case None => true
    case Some(b) => size >= b
  }

  function Max(a: nat, b: nat): nat {
    if a < b then b else a
  }

  /**
    * How many nested times the walk of `l` evaluates `depth + 1`: once for
    * every kept file and once for every directory it descends into. The
    * `u8` depth does not overflow when `depth + Height(l, cfg) <= 255`.
    */
  function Height(l: Listing, cfg: Config): (h: nat) {
    match l
    case Unreadable => 0
    case Listed(es) => EntriesHeight(es, cfg)
  }

  function EntriesHeight(es: seq<Entry>, cfg: Config): (h: nat)
    ensures forall e | e in es :: EntryHeight(e, cfg) <= h
  {
    if es == [] then 0
    else Max(EntriesHeight(es[..|es| - 1], cfg), EntryHeight(es[|es| - 1], cfg))
  }

  function EntryHeight(e: Entry, cfg: Config): (h: nat) {
    if cfg.excluded(e.path) then 0
    else match e
      case File(_, len) => if AtLeast(len, cfg.minBytes) then 1 else 0
      case Dir(_, l) => 1 + Height(l, cfg)
      case _ => 0
  }

  /**
    * The tree a builder returns for a directory whose `read_dir` gave `l`:
    * an unreadable directory has no records, a readable one at most one per
    * entry, and a tree with no records has the size of a new tree.
    */
  function Walk(l: Listing, depth: uint8, cfg: Config): (t: Tree)
    requires depth as int + Height(l, cfg) <= 255
    ensures l.Unreadable? ==> t.records == []
    ensures l.Listed? ==> |t.records| <= |l.entries|
    ensures t.records == [] ==> t.fileSize == cfg.rule.initial
    decreases l
  {
    match l
    case Unreadable => EmptyTree(cfg.rule)
    case Listed(es) => WalkEntries(es, depth, cfg)
  }

  /**
    * The tree after the loop has handled the entries `es`, in order: at
    * most one record per entry, and the size of a new tree while no record
    * has been pushed.
    */
  function WalkEntries(es: seq<Entry>, depth: uint8, cfg: Config): (t: Tree)
    requires depth as int + EntriesHeight(es, cfg) <= 255
    ensures |t.records| <= |es|
    ensures t.records == [] ==> t.fileSize == cfg.rule.initial
  {
    if es == [] then EmptyTree(cfg.rule)
    else Step(WalkEntries(es[..|es| - 1], depth, cfg), es[|es| - 1], depth, cfg)
  }

  /**
    * One turn of the loop: what handling entry `e` does to the tree `t`. It
    * pushes at most one record, and `file_size` changes only by a push.
    */
  function Step(t: Tree, e: Entry, depth: uint8, cfg: Config): (t': Tree)
    requires depth as int + EntryHeight(e, cfg) <= 255
    ensures |t.records| <= |t'.records| <= |t.records| + 1
    ensures t'.fileSize != t.fileSize ==> |t'.records| == |t.records| + 1
    decreases e
  {
    if cfg.excluded(e.path) then t
    else match e
      case File(p, len) =>
        if AtLeast(len, cfg.minBytes) then Pushed(t, Record(p, len, None, depth + 1), cfg.rule)
        else t
      case Dir(p, l) =>
        var subtree := Walk(l, depth + 1, cfg);
        if AtLeast(subtree.fileSize, cfg.minBytes)
        then Pushed(t, Record(p, subtree.fileSize, Some(subtree), depth + 1), cfg.rule)
        else t
      case _ => t
  }

  /** The two warnings a builder prints unless `silent`. */
  datatype Warning =
    | SymlinkIgnored(path: Path)     // "ignoring symlink at ..."
    | PermissionDenied(path: Path)   // "permission denied for directory: ..."

  /**
    * The warnings printed while walking directory `dir`, whose `read_dir`
    * gave `l`, in order. None is about an excluded path, except for `dir`
    * itself, whose path the caller did not test.
    */
  ghost function Warnings(dir: Path, l: Listing, excluded: Path -> bool, silent: bool): (ws: seq<Warning>)
    ensures forall w | w in ws :: w == PermissionDenied(dir) || !excluded(w.path)
    decreases l
  {
    match l
    case Unreadable => if silent then [] else [PermissionDenied(dir)]
    case Listed(es) => EntriesWarnings(es, excluded, silent)
  }

  ghost function EntriesWarnings(es: seq<Entry>, excluded: Path -> bool, silent: bool): (ws: seq<Warning>)
    ensures forall w | w in ws :: !excluded(w.path)
  {
    if es == [] then []
    else EntriesWarnings(es[..|es| - 1], excluded, silent) + EntryWarnings(es[|es| - 1], excluded, silent)
  }

  ghost function EntryWarnings(e: Entry, excluded: Path -> bool, silent: bool): (ws: seq<Warning>)
    ensures forall w | w in ws :: !excluded(w.path)
  {
    if excluded(e.path) then []
    else match e
      case NoMetadata(p) => if silent then [] else [SymlinkIgnored(p)]
      case Dir(p, l) => Warnings(p, l, excluded, silent)
      case _ => []
  }

  /**
    * The final value of the local `total_size`, which is never returned:
    * the sizes of all files and directories of the level, kept or not,
    * summed exactly. Whatever FileTree does with sizes, it is at least the
    * sum of the sizes pushed at this level, and equal to it without a
    * threshold.
    */
  ghost function LevelTotal(l: Listing, depth: uint8, cfg: Config): (total: nat)
    requires depth as int + Height(l, cfg) <= 255
    ensures SumSizes(Walk(l, depth, cfg).records) <= total
    ensures cfg.minBytes.None? ==> total == SumSizes(Walk(l, depth, cfg).records)
  {
    match l
    case Unreadable => 0
    case Listed(es) => EntriesTotal(es, depth, cfg)
  }

  ghost function EntriesTotal(es: seq<Entry>, depth: uint8, cfg: Config): (total: nat)
    requires depth as int + EntriesHeight(es, cfg) <= 255
    ensures SumSizes(WalkEntries(es, depth, cfg).records) <= total
    ensures cfg.minBytes.None? ==> total == SumSizes(WalkEntries(es, depth, cfg).records)
  {
    if es == [] then 0
    else
      StepSum(WalkEntries(es[..|es| - 1], depth, cfg), es[|es| - 1], depth, cfg);
      EntriesTotal(es[..|es| - 1], depth, cfg) + EntryTotal(es[|es| - 1], depth, cfg)
  }

  ghost function EntryTotal(e: Entry, depth: uint8, cfg: Config): (added: nat)
    requires depth as int + EntryHeight(e, cfg) <= 255
  {
    if cfg.excluded(e.path) then 0
    else match e
      case File(_, len) => len
      case Dir(_, l) => Walk(l, depth + 1, cfg).fileSize
      case _ => 0
  }

  /**
    * One turn of the loop keeps the earlier records in place and appends at
    * most one; when it appends none, the tree is unchanged. An appended
    * record is for `e`, which is then a file or a directory that is not
    * excluded, at `depth + 1` and at or above the threshold.
    */
  lemma StepAppendsOneRecord(t: Tree, e: Entry, depth: uint8, cfg: Config)
    requires depth as int + EntryHeight(e, cfg) <= 255
    ensures |Step(t, e, depth, cfg).records| == |t.records| ==> Step(t, e, depth, cfg) == t
    ensures |Step(t, e, depth, cfg).records| > |t.records| ==>
              var r := Step(t, e, depth, cfg).records[|t.records|];
              Step(t, e, depth, cfg).records == t.records + [r] &&
              r.path == e.path && !cfg.excluded(e.path) && (e.File? || e.Dir?) &&
              r.depth as int == depth as int + 1 && AtLeast(r.size, cfg.minBytes)
  {
  }

  /**
    * A record pushed for `e` has the size `e` adds to `total_size`; without
    * a threshold, an entry that adds anything is pushed.
    */
  lemma StepSum(t: Tree, e: Entry, depth: uint8, cfg: Config)
    requires depth as int + EntryHeight(e, cfg) <= 255
    ensures SumSizes(Step(t, e, depth, cfg).records)
         == SumSizes(t.records) + (if |Step(t, e, depth, cfg).records| > |t.records| then EntryTotal(e, depth, cfg) else 0)
    ensures cfg.minBytes.None? ==> |Step(t, e, depth, cfg).records| > |t.records| || EntryTotal(e, depth, cfg) == 0
  {
    var t' := Step(t, e, depth, cfg);
    if |t'.records| > |t.records| {
      var r := t'.records[|t.records|];
      assert t'.records == t.records + [r];
      assert (t.records + [r])[..|t.records|] == t.records;
    }
  }

  /** Every prefix of a listing needs no more depth than the whole listing. */
  lemma {:induction false} PrefixHeight(es: seq<Entry>, i: nat, cfg: Config)
    requires i <= |es|
    ensures EntriesHeight(es[..i], cfg) <= EntriesHeight(es, cfg)
  {
    if i < |es| {
      var pre := es[..|es| - 1];
      assert es[..i] == pre[..i];
      PrefixHeight(pre, i, cfg);
    } else {
      assert es[..i] == es;
    }
  }

  /** Handling one more entry of a listing is one more `Step`, warning list and total. */
  lemma NextEntry(es: seq<Entry>, i: nat, depth: uint8, cfg: Config, silent: bool)
    requires i < |es|
    requires depth as int + EntriesHeight(es, cfg) <= 255
    ensures depth as int + EntriesHeight(es[..i], cfg) <= 255
    ensures depth as int + EntriesHeight(es[..i + 1], cfg) <= 255
    ensures depth as int + EntryHeight(es[i], cfg) <= 255
    ensures WalkEntries(es[..i + 1], depth, cfg) == Step(WalkEntries(es[..i], depth, cfg), es[i], depth, cfg)
    ensures EntriesWarnings(es[..i + 1], cfg.excluded, silent)
         == EntriesWarnings(es[..i], cfg.excluded, silent) + EntryWarnings(es[i], cfg.excluded, silent)
    ensures EntriesTotal(es[..i + 1], depth, cfg) == EntriesTotal(es[..i], depth, cfg) + EntryTotal(es[i], depth, cfg)
  {
    assert es[..i + 1][..i] == es[..i];
    PrefixHeight(es, i, cfg);
    PrefixHeight(es, i + 1, cfg);
  }
}
