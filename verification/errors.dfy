/** The errors the codec and its cursors report, and the result of a fallible call. */
module Errors {

  datatype Error =
    | InvalidMessage  // a frame whose length is not the operation's fixed size
    | SeekOutOfRange  // a seek to a position before the start or past the end
    | ShortRead       // a read that needs more bytes than remain

  datatype Result<T> = Success(value: T) | Failure(error: Error)
}
