/**
  * What the walk guarantees about the tree it returns: which entries are
  * pushed and in what order, with what depth, size and subtree; how the
  * exclusion test prunes the listing at every depth; what `silent` changes;
  * and, under the additive reading of FileTree's sizes, how a tree's size
  * relates to the bytes below it and to the dead `total_size`.
  */
module ScanProperties {
  import opened Wrappers
  import opened Fs
  import opened Types
  import opened Scan

  // ---------------------------------------------------------------------
  // Which entries are pushed, in which order, as which records
  // ---------------------------------------------------------------------

  /** Entry `e` gets a record: not excluded, a file or a directory, and at or above the threshold. */
  predicate Admits(e: Entry, depth: uint8, cfg: Config)
    requires depth as int + EntryHeight(e, cfg) <= 255
  {
    !cfg.excluded(e.path) &&
    match e
    case File(_, len) => AtLeast(len, cfg.minBytes)
    case Dir(_, l) => AtLeast(Walk(l, depth + 1, cfg).fileSize, cfg.minBytes)
    case _ => false
  }

  /** `a` is `b` with some of its elements left out, the rest in the same order. */
  predicate Subsequence<T(==)>(a: seq<T>, b: seq<T>) {
    if a == [] then true
    else if b == [] then false
    else
      (a[|a| - 1] == b[|b| - 1] && Subsequence(a[..|a| - 1], b[..|b| - 1])) ||
      Subsequence(a, b[..|b| - 1])
  }

  /**
    * The entries of `es` that are admitted, in listing order: every
    * admitted entry of the listing, and nothing else.
    */
  function Admitted(es: seq<Entry>, depth: uint8, cfg: Config): (kept: seq<Entry>)
    requires depth as int + EntriesHeight(es, cfg) <= 255
    ensures Subsequence(kept, es)
    ensures forall e | e in kept :: e in es && Admits(e, depth, cfg)
    ensures forall e | e in es && Admits(e, depth, cfg) :: e in kept
  {
    if es == [] then []
    else
      var pre, e := es[..|es| - 1], es[|es| - 1];
      var kept := Admitted(pre, depth, cfg);
      if Admits(e, depth, cfg) then
        assert (kept + [e])[..|kept|] == kept;
        kept + [e]
      else
        kept
  }

  /** The record pushed for an admitted entry. */
  function RecordOf(e: Entry, depth: uint8, cfg: Config): (r: Record)
    requires depth as int + EntryHeight(e, cfg) <= 255 && Admits(e, depth, cfg)
  {
    match e
    case File(p, len) => Record(p, len, None, depth + 1)
    case Dir(p, l) =>
      var subtree := Walk(l, depth + 1, cfg);
      Record(p, subtree.fileSize, Some(subtree), depth + 1)
  }

  function RecordsOf(es: seq<Entry>, depth: uint8, cfg: Config): (rs: seq<Record>)
    requires forall e | e in es :: depth as int + EntryHeight(e, cfg) <= 255 && Admits(e, depth, cfg)
    ensures |rs| == |es|
  {
    if es == [] then []
    else RecordsOf(es[..|es| - 1], depth, cfg) + [RecordOf(es[|es| - 1], depth, cfg)]
  }

  /** The `file_size` of a new tree after the records `rs` are pushed in order. */
  function Accumulated(rule: SizeRule, rs: seq<Record>): (size: nat) {
    if rs == [] then rule.initial
    else rule.grow(Accumulated(rule, rs[..|rs| - 1]), rs[|rs| - 1].size)
  }

  /** One turn of the loop pushes the record of an admitted entry, and does nothing otherwise. */
  lemma StepAdmits(t: Tree, e: Entry, depth: uint8, cfg: Config)
    requires depth as int + EntryHeight(e, cfg) <= 255
    ensures Step(t, e, depth, cfg) == if Admits(e, depth, cfg) then Pushed(t, RecordOf(e, depth, cfg), cfg.rule) else t
  {
  }

  /**
    * The loop pushes exactly one record per admitted entry, in listing
    * order, and nothing else; the tree's size is what pushing those
    * records into a new tree gives.
    */
  lemma {:induction false} WalkEntriesShape(es: seq<Entry>, depth: uint8, cfg: Config)
    requires depth as int + EntriesHeight(es, cfg) <= 255
    ensures WalkEntries(es, depth, cfg).records == RecordsOf(Admitted(es, depth, cfg), depth, cfg)
    ensures WalkEntries(es, depth, cfg).fileSize == Accumulated(cfg.rule, WalkEntries(es, depth, cfg).records)
  {
    if es != [] {
      var pre, e := es[..|es| - 1], es[|es| - 1];
      WalkEntriesShape(pre, depth, cfg);
      var t := WalkEntries(pre, depth, cfg);
      var kept := Admitted(pre, depth, cfg);
      StepAdmits(t, e, depth, cfg);
      if Admits(e, depth, cfg) {
        var r := RecordOf(e, depth, cfg);
        assert (kept + [e])[..|kept|] == kept;
        assert (t.records + [r])[..|t.records|] == t.records;
      } else {
        assert kept + [] == kept;
      }
    }
  }

  /** The files and directories of `es` that the exclusion test lets through, in listing order. */
  function Eligible(es: seq<Entry>, excluded: Path -> bool): (kept: seq<Entry>)
    ensures forall e | e in kept :: e in es && !excluded(e.path) && (e.File? || e.Dir?)
  {
    if es == [] then []
    else
      var e := es[|es| - 1];
      Eligible(es[..|es| - 1], excluded) + (if !excluded(e.path) && (e.File? || e.Dir?) then [e] else [])
  }

  /** Without a threshold, every file and directory that is not excluded is admitted. */
  lemma {:induction false} NoThresholdAdmitsEligible(es: seq<Entry>, depth: uint8, cfg: Config)
    requires cfg.minBytes.None?
    requires depth as int + EntriesHeight(es, cfg) <= 255
    ensures Admitted(es, depth, cfg) == Eligible(es, cfg.excluded)
  {
    if es != [] {
      NoThresholdAdmitsEligible(es[..|es| - 1], depth, cfg);
    }
  }

  /**
    * Without a threshold, the tree holds one record for every file and every
    * directory of the listing that is not excluded, in listing order.
    */
  lemma NoThresholdPushesEveryEntry(es: seq<Entry>, depth: uint8, cfg: Config)
    requires cfg.minBytes.None?
    requires depth as int + EntriesHeight(es, cfg) <= 255
    ensures |WalkEntries(es, depth, cfg).records| == |Eligible(es, cfg.excluded)|
    ensures WalkEntries(es, depth, cfg).records == RecordsOf(Eligible(es, cfg.excluded), depth, cfg)
  {
    WalkEntriesShape(es, depth, cfg);
    NoThresholdAdmitsEligible(es, depth, cfg);
  }

  /** Leaving one entry out of a listing never raises the depth it needs. */
  lemma {:induction false} LeaveOutHeight(es1: seq<Entry>, d: Entry, es2: seq<Entry>, cfg: Config)
    ensures EntriesHeight(es1 + es2, cfg) <= EntriesHeight(es1 + [d] + es2, cfg)
  {
    if es2 == [] {
      assert es1 + es2 == es1;
      assert (es1 + [d] + es2)[..|es1|] == es1;
    } else {
      var pre2 := es2[..|es2| - 1];
      assert (es1 + [d] + es2)[..|es1 + [d] + es2| - 1] == es1 + [d] + pre2;
      assert (es1 + es2)[..|es1 + es2| - 1] == es1 + pre2;
      LeaveOutHeight(es1, d, pre2, cfg);
    }
  }

  /** The loop over `a + [x]` is the loop over `a` and one more turn. */
  lemma WalkAppend(a: seq<Entry>, x: Entry, depth: uint8, cfg: Config)
    requires depth as int + EntriesHeight(a + [x], cfg) <= 255
    ensures depth as int + EntriesHeight(a, cfg) <= 255 && depth as int + EntryHeight(x, cfg) <= 255
    ensures WalkEntries(a + [x], depth, cfg) == Step(WalkEntries(a, depth, cfg), x, depth, cfg)
  {
    assert (a + [x])[..|a|] == a;
    assert x in a + [x];
    PrefixHeight(a + [x], |a|, cfg);
  }

  /**
    * A directory below the threshold is dropped with everything the
    * recursion built under it: wherever it stands in the listing, the tree
    * is the one built from the listing without it.
    */
  lemma {:induction false} BelowThresholdDirectoryDropped(es1: seq<Entry>, p: Path, l: Listing, es2: seq<Entry>,
                                                          depth: uint8, cfg: Config)
    requires cfg.minBytes.Some?
    requires !cfg.excluded(p)
    requires depth as int + EntriesHeight(es1 + [Dir(p, l)] + es2, cfg) <= 255
    requires depth as int + 1 + Height(l, cfg) <= 255
    requires Walk(l, depth + 1, cfg).fileSize < cfg.minBytes.value
    ensures depth as int + EntriesHeight(es1 + es2, cfg) <= 255
    ensures WalkEntries(es1 + [Dir(p, l)] + es2, depth, cfg) == WalkEntries(es1 + es2, depth, cfg)
  {
    if es2 == [] {
      DroppedLast(es1, p, l, depth, cfg);
    } else {
      DroppedStep(es1, Dir(p, l), es2, depth, cfg);
      BelowThresholdDirectoryDropped(es1, p, l, es2[..|es2| - 1], depth, cfg);
    }
  }

  /** `BelowThresholdDirectoryDropped` when the directory is the last entry. */
  lemma DroppedLast(es1: seq<Entry>, p: Path, l: Listing, depth: uint8, cfg: Config)
    requires cfg.minBytes.Some?
    requires !cfg.excluded(p)
    requires depth as int + EntriesHeight(es1 + [Dir(p, l)] + [], cfg) <= 255
    requires depth as int + 1 + Height(l, cfg) <= 255
    requires Walk(l, depth + 1, cfg).fileSize < cfg.minBytes.value
    ensures depth as int + EntriesHeight(es1 + [], cfg) <= 255
    ensures WalkEntries(es1 + [Dir(p, l)] + [], depth, cfg) == WalkEntries(es1 + [], depth, cfg)
  {
    assert es1 + [Dir(p, l)] + [] == es1 + [Dir(p, l)];
    assert es1 + [] == es1;
    WalkAppend(es1, Dir(p, l), depth, cfg);
  }

  /**
    * The last turn of the loop, over `es1 + [d] + es2` and over `es1 + es2`
    * alike, when `es2` is not empty.
    */
  lemma DroppedStep(es1: seq<Entry>, d: Entry, es2: seq<Entry>, depth: uint8, cfg: Config)
    requires es2 != []
    requires depth as int + EntriesHeight(es1 + [d] + es2, cfg) <= 255
    ensures depth as int + EntriesHeight(es1 + es2, cfg) <= 255
    ensures depth as int + EntriesHeight(es1 + [d] + es2[..|es2| - 1], cfg) <= 255
    ensures depth as int + EntriesHeight(es1 + es2[..|es2| - 1], cfg) <= 255
    ensures depth as int + EntryHeight(es2[|es2| - 1], cfg) <= 255
    ensures WalkEntries(es1 + [d] + es2, depth, cfg)
         == Step(WalkEntries(es1 + [d] + es2[..|es2| - 1], depth, cfg), es2[|es2| - 1], depth, cfg)
    ensures WalkEntries(es1 + es2, depth, cfg)
         == Step(WalkEntries(es1 + es2[..|es2| - 1], depth, cfg), es2[|es2| - 1], depth, cfg)
  {
    LeaveOutHeight(es1, d, es2, cfg);
    var pre2, x := es2[..|es2| - 1], es2[|es2| - 1];
    var a, b := es1 + [d] + pre2, es1 + pre2;
    assert es1 + [d] + es2 == a + [x];
    assert es1 + es2 == b + [x];
    LeaveOutHeight(es1, d, pre2, cfg);
    WalkAppend(a, x, depth, cfg);
    WalkAppend(b, x, depth, cfg);
  }

  // ---------------------------------------------------------------------
  // Depth, threshold, exclusion and subtree sizes, at every level
  // ---------------------------------------------------------------------

  /**
    * `t` is a tree the walk can build at `depth`: every record is at
    * `depth + 1`, was not excluded, meets the threshold, and, for a
    * directory, carries its subtree's size and a subtree built the same way
    * at `depth + 1`; the tree's size is what its pushes accumulate.
    */
  predicate Conforms(t: Tree, depth: int, cfg: Config) {
    t.fileSize == Accumulated(cfg.rule, t.records) &&
    forall r | r in t.records ::
      r.depth as int == depth + 1 &&
      !cfg.excluded(r.path) &&
      AtLeast(r.size, cfg.minBytes) &&
      (r.subtree.Some? ==> r.size == r.subtree.value.fileSize && Conforms(r.subtree.value, depth + 1, cfg))
  }

  lemma {:induction false} WalkConforms(l: Listing, depth: uint8, cfg: Config)
    requires depth as int + Height(l, cfg) <= 255
    ensures Conforms(Walk(l, depth, cfg), depth as int, cfg)
    decreases l
  {
    match l
    case Unreadable =>
    case Listed(es) => WalkEntriesConforms(es, depth, cfg);
  }

  lemma {:induction false} WalkEntriesConforms(es: seq<Entry>, depth: uint8, cfg: Config)
    requires depth as int + EntriesHeight(es, cfg) <= 255
    ensures Conforms(WalkEntries(es, depth, cfg), depth as int, cfg)
  {
    if es != [] {
      var pre, e := es[..|es| - 1], es[|es| - 1];
      WalkEntriesConforms(pre, depth, cfg);
      var t := WalkEntries(pre, depth, cfg);
      StepAdmits(t, e, depth, cfg);
      if Admits(e, depth, cfg) {
        if e.Dir? {
          WalkConforms(e.listing, depth + 1, cfg);
        }
        var r := RecordOf(e, depth, cfg);
        assert (t.records + [r])[..|t.records|] == t.records;
      }
    }
  }

  // ---------------------------------------------------------------------
  // Exclusion prunes the listing before the walk, at every depth
  // ---------------------------------------------------------------------

  /** `l` with every entry whose path is excluded removed, at every depth. */
  function Prune(l: Listing, excluded: Path -> bool): (pruned: Listing)
    decreases l
  {
    match l
    case Unreadable => Unreadable
    case Listed(es) => Listed(PruneEntries(es, excluded))
  }

  function PruneEntries(es: seq<Entry>, excluded: Path -> bool): (pruned: seq<Entry>) {
    if es == [] then []
    else
      var e := es[|es| - 1];
      PruneEntries(es[..|es| - 1], excluded) + (if excluded(e.path) then [] else [PruneEntry(e, excluded)])
  }

  function PruneEntry(e: Entry, excluded: Path -> bool): (pruned: Entry) {
    match e
    case Dir(p, l) => Dir(p, Prune(l, excluded))
    case _ => e
  }

  /** No entry anywhere in `l` has a path that `excluded` matches. */
  predicate Unmatched(l: Listing, excluded: Path -> bool) {
    match l
    case Unreadable => true
    case Listed(es) => forall e | e in es :: !excluded(e.path) && (e.Dir? ==> Unmatched(e.listing, excluded))
  }

  lemma {:induction false} PruneHeight(l: Listing, cfg: Config)
    ensures Height(Prune(l, cfg.excluded), cfg.(excluded := NeverExcluded)) == Height(l, cfg)
    decreases l
  {
    match l
    case Unreadable =>
    case Listed(es) => PruneEntriesHeight(es, cfg);
  }

  lemma {:induction false} PruneEntriesHeight(es: seq<Entry>, cfg: Config)
    ensures EntriesHeight(PruneEntries(es, cfg.excluded), cfg.(excluded := NeverExcluded)) == EntriesHeight(es, cfg)
  {
    if es != [] {
      var pre, e := es[..|es| - 1], es[|es| - 1];
      var pruned := PruneEntries(pre, cfg.excluded);
      PruneEntriesHeight(pre, cfg);
      if !cfg.excluded(e.path) {
        assert (pruned + [PruneEntry(e, cfg.excluded)])[..|pruned|] == pruned;
        if e.Dir? {
          PruneHeight(e.listing, cfg);
        }
      } else {
        assert pruned + [] == pruned;
      }
    }
  }

  /**
    * The exclusion test is applied before anything else is looked at, and
    * to every entry at every depth: walking with it is walking, with no
    * exclusion at all, the listing with the excluded entries cut out. The
    * same holds of the warnings.
    */
  lemma ExclusionIsPruning(dir: Path, l: Listing, depth: uint8, cfg: Config, silent: bool)
    requires depth as int + Height(l, cfg) <= 255
    ensures depth as int + Height(Prune(l, cfg.excluded), cfg.(excluded := NeverExcluded)) <= 255
    ensures Walk(Prune(l, cfg.excluded), depth, cfg.(excluded := NeverExcluded)) == Walk(l, depth, cfg)
    ensures Warnings(dir, Prune(l, cfg.excluded), NeverExcluded, silent) == Warnings(dir, l, cfg.excluded, silent)
  {
    PruneWalk(l, depth, cfg);
    PruneWarnings(dir, l, cfg.excluded, silent);
  }

  lemma EntriesExclusionIsPruning(es: seq<Entry>, depth: uint8, cfg: Config, silent: bool)
    requires depth as int + EntriesHeight(es, cfg) <= 255
    ensures depth as int + EntriesHeight(PruneEntries(es, cfg.excluded), cfg.(excluded := NeverExcluded)) <= 255
    ensures WalkEntries(PruneEntries(es, cfg.excluded), depth, cfg.(excluded := NeverExcluded)) == WalkEntries(es, depth, cfg)
    ensures EntriesWarnings(PruneEntries(es, cfg.excluded), NeverExcluded, silent)
         == EntriesWarnings(es, cfg.excluded, silent)
  {
    PruneEntriesWalk(es, depth, cfg);
    PruneEntriesWarnings(es, cfg.excluded, silent);
  }

  /** The tree part of `ExclusionIsPruning`. */
  lemma {:induction false} PruneWalk(l: Listing, depth: uint8, cfg: Config)
    requires depth as int + Height(l, cfg) <= 255
    ensures depth as int + Height(Prune(l, cfg.excluded), cfg.(excluded := NeverExcluded)) <= 255
    ensures Walk(Prune(l, cfg.excluded), depth, cfg.(excluded := NeverExcluded)) == Walk(l, depth, cfg)
    decreases l
  {
    PruneHeight(l, cfg);
    match l
    case Unreadable =>
    case Listed(es) => PruneEntriesWalk(es, depth, cfg);
  }

  lemma {:induction false} PruneEntriesWalk(es: seq<Entry>, depth: uint8, cfg: Config)
    requires depth as int + EntriesHeight(es, cfg) <= 255
    ensures depth as int + EntriesHeight(PruneEntries(es, cfg.excluded), cfg.(excluded := NeverExcluded)) <= 255
    ensures WalkEntries(PruneEntries(es, cfg.excluded), depth, cfg.(excluded := NeverExcluded)) == WalkEntries(es, depth, cfg)
    decreases es, 1
  {
    PruneEntriesHeightBound(es, depth, cfg);
    if es != [] {
      PrefixHeight(es, |es| - 1, cfg);
      PruneEntriesWalk(es[..|es| - 1], depth, cfg);
      PruneLastListing(es, depth, cfg);
      PruneLastEntry(es, depth, cfg);
    }
  }

  /** `PruneWalk` for the listing of the last entry, if that is a directory that is not excluded. */
  lemma PruneLastListing(es: seq<Entry>, depth: uint8, cfg: Config)
    requires es != []
    requires depth as int + EntriesHeight(es, cfg) <= 255
    ensures es[|es| - 1].Dir? && !cfg.excluded(es[|es| - 1].path) ==>
              depth as int + 1 + Height(es[|es| - 1].listing, cfg) <= 255 &&
              depth as int + 1 + Height(Prune(es[|es| - 1].listing, cfg.excluded), cfg.(excluded := NeverExcluded)) <= 255 &&
              Walk(Prune(es[|es| - 1].listing, cfg.excluded), depth + 1, cfg.(excluded := NeverExcluded))
              == Walk(es[|es| - 1].listing, depth + 1, cfg)
    decreases es, 0
  {
    var e := es[|es| - 1];
    if e.Dir? && !cfg.excluded(e.path) {
      assert e in es;
      PruneWalk(e.listing, depth + 1, cfg);
    }
  }

  /** The height bound of `PruneEntriesWalk`, alone. */
  lemma PruneEntriesHeightBound(es: seq<Entry>, depth: uint8, cfg: Config)
    requires depth as int + EntriesHeight(es, cfg) <= 255
    ensures depth as int + EntriesHeight(PruneEntries(es, cfg.excluded), cfg.(excluded := NeverExcluded)) <= 255
  {
    PruneEntriesHeight(es, cfg);
  }

  /** `PruneEntriesWalk` for a non-empty listing, given the facts for all but its last entry. */
  lemma PruneLastEntry(es: seq<Entry>, depth: uint8, cfg: Config)
    requires es != []
    requires depth as int + EntriesHeight(es, cfg) <= 255
    requires depth as int + EntriesHeight(es[..|es| - 1], cfg) <= 255
    requires depth as int + EntriesHeight(PruneEntries(es, cfg.excluded), cfg.(excluded := NeverExcluded)) <= 255
    requires depth as int + EntriesHeight(PruneEntries(es[..|es| - 1], cfg.excluded), cfg.(excluded := NeverExcluded)) <= 255
    requires WalkEntries(PruneEntries(es[..|es| - 1], cfg.excluded), depth, cfg.(excluded := NeverExcluded))
          == WalkEntries(es[..|es| - 1], depth, cfg)
    requires es[|es| - 1].Dir? && !cfg.excluded(es[|es| - 1].path) ==>
               depth as int + 1 + Height(es[|es| - 1].listing, cfg) <= 255 &&
               depth as int + 1 + Height(Prune(es[|es| - 1].listing, cfg.excluded), cfg.(excluded := NeverExcluded)) <= 255 &&
               Walk(Prune(es[|es| - 1].listing, cfg.excluded), depth + 1, cfg.(excluded := NeverExcluded))
               == Walk(es[|es| - 1].listing, depth + 1, cfg)
    ensures WalkEntries(PruneEntries(es, cfg.excluded), depth, cfg.(excluded := NeverExcluded)) == WalkEntries(es, depth, cfg)
  {
    var pre, e := es[..|es| - 1], es[|es| - 1];
    var none := cfg.(excluded := NeverExcluded);
    var pruned := PruneEntries(pre, cfg.excluded);
    assert es == pre + [e];
    WalkAppend(pre, e, depth, cfg);
    if !cfg.excluded(e.path) {
      var e' := PruneEntry(e, cfg.excluded);
      assert PruneEntries(es, cfg.excluded) == pruned + [e'];
      WalkAppend(pruned, e', depth, none);
      PruneStep(WalkEntries(pre, depth, cfg), e, depth, cfg);
    } else {
      assert PruneEntries(es, cfg.excluded) == pruned;
    }
  }

  /** One turn of the loop on an entry that is not excluded, and on the same entry pruned. */
  lemma PruneStep(t: Tree, e: Entry, depth: uint8, cfg: Config)
    requires depth as int + EntryHeight(e, cfg) <= 255
    requires !cfg.excluded(e.path)
    requires e.Dir? ==>
               depth as int + 1 + Height(Prune(e.listing, cfg.excluded), cfg.(excluded := NeverExcluded)) <= 255 &&
               Walk(Prune(e.listing, cfg.excluded), depth + 1, cfg.(excluded := NeverExcluded))
               == Walk(e.listing, depth + 1, cfg)
    ensures depth as int + EntryHeight(PruneEntry(e, cfg.excluded), cfg.(excluded := NeverExcluded)) <= 255
    ensures Step(t, PruneEntry(e, cfg.excluded), depth, cfg.(excluded := NeverExcluded)) == Step(t, e, depth, cfg)
  {
  }

  /** The warnings part of `ExclusionIsPruning`. */
  lemma {:induction false} PruneWarnings(dir: Path, l: Listing, excluded: Path -> bool, silent: bool)
    ensures Warnings(dir, Prune(l, excluded), NeverExcluded, silent) == Warnings(dir, l, excluded, silent)
    decreases l
  {
    match l
    case Unreadable =>
    case Listed(es) => PruneEntriesWarnings(es, excluded, silent);
  }

  lemma {:induction false} PruneEntriesWarnings(es: seq<Entry>, excluded: Path -> bool, silent: bool)
    ensures EntriesWarnings(PruneEntries(es, excluded), NeverExcluded, silent) == EntriesWarnings(es, excluded, silent)
  {
    if es != [] {
      var pre, e := es[..|es| - 1], es[|es| - 1];
      var pruned := PruneEntries(pre, excluded);
      PruneEntriesWarnings(pre, excluded, silent);
      if !excluded(e.path) {
        assert (pruned + [PruneEntry(e, excluded)])[..|pruned|] == pruned;
        if e.Dir? {
          PruneWarnings(e.path, e.listing, excluded, silent);
        }
      } else {
        assert pruned + [] == pruned;
      }
    }
  }

  lemma {:induction false} PruneUnmatched(l: Listing, excluded: Path -> bool)
    requires Unmatched(l, excluded)
    ensures Prune(l, excluded) == l
    decreases l
  {
    match l
    case Unreadable =>
    case Listed(es) => PruneEntriesUnmatched(es, excluded);
  }

  lemma {:induction false} PruneEntriesUnmatched(es: seq<Entry>, excluded: Path -> bool)
    requires forall e | e in es :: !excluded(e.path) && (e.Dir? ==> Unmatched(e.listing, excluded))
    ensures PruneEntries(es, excluded) == es
  {
    if es != [] {
      var pre, e := es[..|es| - 1], es[|es| - 1];
      PruneEntriesUnmatched(pre, excluded);
      if e.Dir? {
        PruneUnmatched(e.listing, excluded);
      }
      assert pre + [e] == es;
    }
  }

  /**
    * `read_files_regex` with a regex that matches no path of the walked
    * tree builds the tree `read_files` builds, and prints the same warnings.
    */
  lemma NeverMatchingRegexIsReadFiles(dir: Path, l: Listing, depth: uint8, cfg: Config, silent: bool)
    requires Unmatched(l, cfg.excluded)
    requires depth as int + Height(l, cfg) <= 255
    ensures depth as int + Height(l, cfg.(excluded := NeverExcluded)) <= 255
    ensures Walk(l, depth, cfg) == Walk(l, depth, cfg.(excluded := NeverExcluded))
    ensures Warnings(dir, l, cfg.excluded, silent) == Warnings(dir, l, NeverExcluded, silent)
  {
    PruneUnmatched(l, cfg.excluded);
    ExclusionIsPruning(dir, l, depth, cfg, silent);
  }

  // ---------------------------------------------------------------------
  // Warnings
  // ---------------------------------------------------------------------

  /** With `silent`, nothing is printed; the tree does not depend on `silent` at all. */
  lemma {:induction false} SilentPrintsNothing(dir: Path, l: Listing, excluded: Path -> bool)
    ensures Warnings(dir, l, excluded, true) == []
    decreases l
  {
    match l
    case Unreadable =>
    case Listed(es) => SilentEntriesPrintNothing(es, excluded);
  }

  lemma {:induction false} SilentEntriesPrintNothing(es: seq<Entry>, excluded: Path -> bool)
    ensures EntriesWarnings(es, excluded, true) == []
  {
    if es != [] {
      var e := es[|es| - 1];
      SilentEntriesPrintNothing(es[..|es| - 1], excluded);
      if e.Dir? && !excluded(e.path) {
        SilentPrintsNothing(e.path, e.listing, excluded);
      }
    }
  }

  // ---------------------------------------------------------------------
  // Sizes, when FileTree adds what is pushed
  // ---------------------------------------------------------------------

  /** The bytes of the files below `l` that the walk can reach: not excluded, in readable directories. */
  function DiskUsage(l: Listing, excluded: Path -> bool): (bytes: nat)
    decreases l
  {
    match l
    case Unreadable => 0
    case Listed(es) => EntriesUsage(es, excluded)
  }

  function EntriesUsage(es: seq<Entry>, excluded: Path -> bool): (bytes: nat) {
    if es == [] then 0
    else EntriesUsage(es[..|es| - 1], excluded) + EntryUsage(es[|es| - 1], excluded)
  }

  function EntryUsage(e: Entry, excluded: Path -> bool): (bytes: nat) {
    if excluded(e.path) then 0
    else match e
      case File(_, len) => len
      case Dir(_, l) => DiskUsage(l, excluded)
      case _ => 0
  }

  /** Under the additive rule a tree's size is the sum of the sizes pushed into it. */
  lemma {:induction false} AdditiveAccumulated(rule: SizeRule, rs: seq<Record>)
    requires IsAdditive(rule)
    ensures Accumulated(rule, rs) == SumSizes(rs)
  {
    if rs != [] {
      AdditiveAccumulated(rule, rs[..|rs| - 1]);
    }
  }

  /**
    * Under the additive rule, the size of the tree is at most the bytes
    * below the directory, and without a threshold it is exactly those bytes.
    */
  lemma {:induction false} SizeIsDiskUsage(l: Listing, depth: uint8, cfg: Config)
    requires IsAdditive(cfg.rule)
    requires depth as int + Height(l, cfg) <= 255
    ensures Walk(l, depth, cfg).fileSize <= DiskUsage(l, cfg.excluded)
    ensures cfg.minBytes.None? ==> Walk(l, depth, cfg).fileSize == DiskUsage(l, cfg.excluded)
    decreases l
  {
    match l
    case Unreadable =>
    case Listed(es) => EntriesSizeIsDiskUsage(es, depth, cfg);
  }

  lemma {:induction false} EntriesSizeIsDiskUsage(es: seq<Entry>, depth: uint8, cfg: Config)
    requires IsAdditive(cfg.rule)
    requires depth as int + EntriesHeight(es, cfg) <= 255
    ensures WalkEntries(es, depth, cfg).fileSize <= EntriesUsage(es, cfg.excluded)
    ensures cfg.minBytes.None? ==> WalkEntries(es, depth, cfg).fileSize == EntriesUsage(es, cfg.excluded)
  {
    if es != [] {
      var pre, e := es[..|es| - 1], es[|es| - 1];
      EntriesSizeIsDiskUsage(pre, depth, cfg);
      if e.Dir? && !cfg.excluded(e.path) {
        SizeIsDiskUsage(e.listing, depth + 1, cfg);
      }
    }
  }

  /** Dropping the threshold never lowers the depth the walk needs. */
  lemma {:induction false} ThresholdHeight(l: Listing, cfg: Config)
    ensures Height(l, cfg) <= Height(l, cfg.(minBytes := None))
    decreases l
  {
    match l
    case Unreadable =>
    case Listed(es) => ThresholdEntriesHeight(es, cfg);
  }

  lemma {:induction false} ThresholdEntriesHeight(es: seq<Entry>, cfg: Config)
    ensures EntriesHeight(es, cfg) <= EntriesHeight(es, cfg.(minBytes := None))
  {
    if es != [] {
      var e := es[|es| - 1];
      ThresholdEntriesHeight(es[..|es| - 1], cfg);
      if e.Dir? {
        ThresholdHeight(e.listing, cfg);
      }
    }
  }

  /** Under the additive rule, a threshold never increases the size of the tree. */
  lemma ThresholdNeverIncreasesSize(l: Listing, depth: uint8, cfg: Config)
    requires IsAdditive(cfg.rule)
    requires depth as int + Height(l, cfg.(minBytes := None)) <= 255
    ensures depth as int + Height(l, cfg) <= 255
    ensures Walk(l, depth, cfg).fileSize <= Walk(l, depth, cfg.(minBytes := None)).fileSize
  {
    ThresholdHeight(l, cfg);
    SizeIsDiskUsage(l, depth, cfg);
    SizeIsDiskUsage(l, depth, cfg.(minBytes := None));
  }

  /**
    * Under the additive rule, a directory whose size is below the threshold
    * had no record in it at all: every record a thresholded walk keeps is at
    * least the threshold, and the size is their sum.
    */
  lemma DroppedDirectoryIsEmpty(l: Listing, depth: uint8, cfg: Config)
    requires IsAdditive(cfg.rule) && cfg.minBytes.Some?
    requires depth as int + Height(l, cfg) <= 255
    ensures Walk(l, depth, cfg).fileSize < cfg.minBytes.value ==> Walk(l, depth, cfg).records == []
  {
    var t := Walk(l, depth, cfg);
    WalkConforms(l, depth, cfg);
    AdditiveAccumulated(cfg.rule, t.records);
    if t.records != [] {
      var last := t.records[|t.records| - 1];
      assert last in t.records;
      assert t.fileSize >= last.size >= cfg.minBytes.value;
    }
  }

  /**
    * The dead `total_size`: under the additive rule it is at least the
    * tree's size, and equal to it when there is no threshold.
    */
  lemma LevelTotalBoundsSize(es: seq<Entry>, depth: uint8, cfg: Config)
    requires IsAdditive(cfg.rule)
    requires depth as int + EntriesHeight(es, cfg) <= 255
    ensures WalkEntries(es, depth, cfg).fileSize <= EntriesTotal(es, depth, cfg)
    ensures cfg.minBytes.None? ==> WalkEntries(es, depth, cfg).fileSize == EntriesTotal(es, depth, cfg)
  {
    WalkEntriesShape(es, depth, cfg);
    AdditiveAccumulated(cfg.rule, WalkEntries(es, depth, cfg).records);
  }

  /**
    * Under the additive rule, the dead `total_size` equals the tree's size
    * whenever the threshold drops no file or directory: the two differ only
    * when something is dropped.
    */
  lemma {:induction false} NothingDroppedTotalIsSize(es: seq<Entry>, depth: uint8, cfg: Config)
    requires IsAdditive(cfg.rule)
    requires depth as int + EntriesHeight(es, cfg) <= 255
    requires forall e | e in es && !cfg.excluded(e.path) && (e.File? || e.Dir?) :: Admits(e, depth, cfg)
    ensures WalkEntries(es, depth, cfg).fileSize == EntriesTotal(es, depth, cfg)
  {
    if es != [] {
      var pre, e := es[..|es| - 1], es[|es| - 1];
      NothingDroppedTotalIsSize(pre, depth, cfg);
      StepAdmits(WalkEntries(pre, depth, cfg), e, depth, cfg);
    }
  }
}
