/**
  * The result type the walk fills in: `FileTree`, with its observable
  * `file_size` and the sequence of records that `push` was given.
  *
  * The internals of `FileTree::new`, `FileTree::push` and `FileSize::add`
  * are not part of this model. What they do to `file_size` is therefore a
  * parameter, `SizeRule`: the `file_size` of a new tree, and the `file_size`
  * after pushing an entry of a given size. Every property of the walk is
  * proved for any rule; the size-sum properties name the additive rule as
  * an explicit hypothesis.
  */
module Types {
  import opened Wrappers
  import opened Fs

  /** How a FileTree's `file_size` starts and how `push` updates it. */
  datatype SizeRule = SizeRule(initial: nat, grow: (nat, nat) -> nat)

  /** A rule is additive when a new tree has size 0 and `push` adds the pushed size. */
  ghost predicate IsAdditive(rule: SizeRule) {
    rule.initial == 0 &&
    forall total: nat, size: nat :: rule.grow(total, size) == total + size
  }

  /** The additive rule: the reading in which a tree's size is the sum of what was pushed into it. */
  const Additive: SizeRule := SizeRule(0, (total: nat, size: nat) => total + size)

  /** The hypothesis of the size lemmas can be met. */
  lemma AdditiveIsAdditive()
    ensures IsAdditive(Additive)
  {
  }

  /** The arguments of one `push`: path, size, the subtree for a directory, and depth. */
  datatype Record = Record(path: Path, size: nat, subtree: Option<Tree>, depth: uint8)

  /** The value of a FileTree: its `file_size` and the records pushed into it, in order. */
  datatype Tree = Tree(fileSize: nat, records: seq<Record>)

  /** The sum of the sizes pushed in `rs`, counted exactly. */
  function SumSizes(rs: seq<Record>): (sum: nat) {
    if rs == [] then 0 else SumSizes(rs[..|rs| - 1]) + rs[|rs| - 1].size
  }

  /** The value of `FileTree::new()`. */
  function EmptyTree(rule: SizeRule): (t: Tree)
  {
    Tree(rule.initial, [])
  }

  /** The value of a tree after `push(r.path, r.size, r.subtree, r.depth)`. */
  function Pushed(t: Tree, r: Record, rule: SizeRule): (t': Tree)
  {
    Tree(rule.grow(t.fileSize, r.size), t.records + [r])
  }

  class FileTree {
    const rule: SizeRule
    var fileSize: nat
    var records: seq<Record>

    function View(): (t: Tree)
      reads this
    {
      Tree(fileSize, records)
    }

    /** `FileTree::new()`. */
    constructor (rule: SizeRule)
      ensures this.rule == rule
      ensures View() == EmptyTree(rule)
    {
      this.rule := rule;
      fileSize := rule.initial;
      records := [];
    }

    /** `FileTree::push(path, size, subtree, depth)`. */
    method Push(path: Path, size: nat, subtree: Option<Tree>, depth: uint8)
      modifies this
      ensures View() == Pushed(old(View()), Record(path, size, subtree, depth), rule)
    {
      fileSize := rule.grow(fileSize, size);
      records := records + [Record(path, size, subtree, depth)];
    }
  }
}
