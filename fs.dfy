/** The stock optional-value datatype, for `Option<u64>` thresholds and optional subtrees. */
module Wrappers {

  datatype Option<+T> = None | Some(value: T)
}

/**
  * What the directory walk sees of the filesystem. `fs::read_dir` and
  * `fs::metadata` are I/O; here their answers are given up front, as a
  * value: a directory's listing is either unreadable or a sequence of
  * entries, and each entry carries what `fs::metadata` said about it.
  */
module Fs {

  /** A path, already converted to a string. */
  type Path = string

  /** The `u8` depth counter of the source. */
  newtype uint8 = d: int | 0 <= d < 256

  /** The result of `fs::read_dir` on a directory, in listing order. */
  datatype Listing =
    | Unreadable                   // read_dir failed (permission denied, missing, not a directory)
    | Listed(entries: seq<Entry>)

  /** One entry of a listing, classified by the result of `fs::metadata`. */
  datatype Entry =
    | File(path: Path, len: nat)          // metadata says regular file of `len` bytes
    | Dir(path: Path, listing: Listing)   // metadata says directory; what reading it yields
    | NoMetadata(path: Path)              // metadata failed (typically a dangling symlink)
    | Other(path: Path)                   // metadata read, but neither file nor directory
}
