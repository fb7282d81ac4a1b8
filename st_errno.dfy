/**
 * The return codes the NDEF library and its tests use (the `ReturnCode`
 * values of st_errno.h), and the Option type used for C pointers that may be
 * NULL.
 */
module StErrno {

  datatype Option<+T> = None | Some(value: T)

  datatype ReturnCode =
    | ERR_NONE             // success
    | ERR_NOMEM            // destination too small, or a missing record in ndefRecordCopy
    | ERR_PARAM            // invalid parameter, or a CHECK_RANGE failure
    | ERR_SYNTAX           // a rule of the NDEF specification is violated
    | ERR_NOMSG            // no message, or a message without records
    | ERR_NOT_IMPLEMENTED  // a tag type the system tests do not support
    | ERR_INTERNAL         // a test's own post-condition failed

  /**
   * What a test helper can end in: a return code, or one of two reads C
   * leaves undefined, through a NULL record pointer or past the end of a
   * table.
   */
  datatype Outcome = Returns(code: ReturnCode) | NullRecordRead | OutOfBoundsRead
}
