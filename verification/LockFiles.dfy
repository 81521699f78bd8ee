/** The file-system cells and the shared remove-if-unchanged routine that both lock
    protocols of the goal supervisor are built from. */
module LockFiles {

  import opened Prelude

  type CallId = nat

  /** One incarnation of an operating-system process: dead stays dead. */
  type ProcessId = nat

  /** What a step does to the recovery guard. */
  datatype GuardChange = Keep | Take | Drop

  /** A random UUID: fresh for every attempt, so the text of a record is equal to another
      record's text exactly when the tokens are equal. */
  type Token = nat

  /** A published file: its contents (identified by the token) and its inode number, which
      the file system may reuse. */
  datatype Record = Record(token: Token, inode: nat)

  type Cell = Option<Record>

  /** Where a running remove-if-unchanged call stands: each constructor is the file-system
      call about to be made. */
  datatype Stage =
    | StatBefore
    | Compare(before: nat)
    | StatAfter(before: nat)
    | Unlink

  datatype Removal = Continue(stage: Stage) | Unchanged | Removed

  /** One file-system call of `removeLockIfUnchanged`. The final `unlink` names the path, not
      the inode: it removes whatever record the cell holds at that moment. */
  function RemoveStep(cell: Cell, expected: Token, stage: Stage): Removal {
    if cell.None? then Unchanged
    else
      match stage
      case StatBefore => Continue(Compare(cell.value.inode))
      case Compare(before) => if cell.value.token == expected then Continue(StatAfter(before)) else Unchanged
      case StatAfter(before) => if cell.value.inode == before then Continue(Unlink) else Unchanged
      case Unlink => Removed
  }

  /** True once the text comparison has succeeded. */
  predicate Compared(stage: Stage) {
    stage.StatAfter? || stage.Unlink?
  }

  function Carries(cell: Cell): Option<Token> {
    if cell.None? then None else Some(cell.value.token)
  }
}
