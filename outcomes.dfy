/** Option and Result types, and the error kinds the archiver client raises. */
module Outcomes {

  /** Python's None, or a value. */
  datatype Option<+T> = None | Some(value: T)

  /** The exceptions the client raises or lets through. */
  datatype Error =
    /** A channel has no entry in the archive index (automatic key selection). */
    | NotFound(channel: string)
    /** The explicit archive keys do not pair up with the channel names. */
    | KeyCountMismatch(keyCount: nat, channelCount: nat)
    /** The remote `values` call for this archive key failed. */
    | RemoteFailure(key: int)
    /** The server returned a record for a channel that was not asked for
        (`list.index` raises). */
    | NameNotRequested(name: string)

  datatype Result<+T> = Ok(value: T) | Err(error: Error)
}
