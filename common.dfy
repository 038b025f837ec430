/** Small shared vocabulary: optional values, handles and the library's status codes. */
module Common {

  datatype Option<+T> = None | Some(value: T)

  /** A handle (`pdcid_t`): 0 is the failure value that the property API returns. */
  type Handle = nat

  /** `perr_t`: SUCCEED or FAIL. */
  datatype Status = Succeed | Fail
}
