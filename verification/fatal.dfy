/** Process-terminating failures and the library's fixed-width unsigned types.

    A failed `check(cond)` or `check_with_message(cond, msg)` ends the process; the model
    returns `Abort(message)` instead, so that callers can state when it happens. */
module Fatal {

  /** Either the value an operation produced, or the message of the failed check that
      terminated the process. `check` without a message aborts with the empty string. */
  datatype Outcome<+T> = Ok(value: T) | Abort(message: string)

  /** One past the largest `usize` (a 64-bit target). */
  const USIZE_BOUND: nat := 0x1_0000_0000_0000_0000

  /** One past the largest `u32`. */
  const U32_BOUND: nat := 0x1_0000_0000

  /** `usize`: lengths, indices and addresses. */
  type usize = x: int | 0 <= x < USIZE_BOUND

  /** `u32`: identifiers handed out by the IR extractor. */
  type u32 = x: int | 0 <= x < U32_BOUND
}
