/** Option and Result, used where the program returns an `Option` or fails with an error. */
module Wrappers {

  datatype Option<+T> = None | Some(value: T)

  datatype Result<+T> = Success(value: T) | Failure(error: Error)

  /** The ways in which an operation of the checkpoint store refuses. */
  datatype Error =
    | CheckpointNotFound(id: nat)
    | CheckpointLimitReached(max: nat)
    | FileNotFound(key: string)
    | InvalidWorkspacePath(key: string)
    | WorkspaceSizeExceeded
    | RangeStartsAtZero
    | RangeReversed
    | DropsCurrentCheckpoint
    | WorkspaceIo
    | Timeout
    | CommandDenied
    | BinaryContent
    | InvalidPattern
}
