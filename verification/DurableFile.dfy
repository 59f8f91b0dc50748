/**
 A state file as the rest of the system sees it: what a read returns now, and
 what a read may return after a machine crash. `AtomicWrite` proves that
 `write_private_atomic` on a file system with unsynced data and directory
 entries behaves exactly as described here.
 */
module DurableFile {
  import opened Common

  /**
   How one atomic replacement ends. `Synced` is `Ok`. `Unsynced` is an error after
   the rename, or a process killed there; `Failed` is either of them before it.
   To the caller `Unsynced` and `Failed` are the same `Err`.
   */
  datatype WriteOutcome = Synced | Unsynced | Failed

  datatype DiskFile<T(==)> = DiskFile(now: Option<T>, mayBe: set<Option<T>>) {

    /** Replace the file's contents. */
    function Put(v: T, outcome: WriteOutcome): DiskFile<T> {
      match outcome
      case Synced => DiskFile(Some(v), {Some(v)})
      case Unsynced => DiskFile(Some(v), mayBe + {Some(v)})
      case Failed => this
    }

    /** Remove the file; the directory is not synced. */
    function Unlinked(): DiskFile<T> { DiskFile(None, mayBe + {None}) }

    /** A sync of the directory, by a write to any of its files. */
    function Settled(): DiskFile<T> { DiskFile(now, {now}) }

    /** The file after a crash from which `v` was recovered. */
    function Recovered(v: Option<T>): DiskFile<T> { DiskFile(v, {v}) }

    ghost predicate Valid() { now in mayBe }

    /** The file exists, and no crash can take it away. */
    predicate Durable() { now.Some? && None !in mayBe }
  }

  function Missing<T(==)>(): DiskFile<T> { DiskFile(None, {None}) }
}
