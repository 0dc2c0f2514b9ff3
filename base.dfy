/** Values shared by every component: an optional value and the ways one run of the
    status script can fail. */
module Base {

  datatype Option<+T> = None | Some(value: T) {
    predicate IsFailure() {
      None?
    }

    function PropagateFailure<U>(): Option<U>
      requires None?
    {
      None
    }

    function Extract(): T
      requires Some?
    {
      value
    }
  }

  /** The exceptions the script lets escape; each one ends the run. */
  datatype Error =
    | CommandFailed(stderr: string)       // the describe command exited with a non-zero status
    | BadTimestamp(text: string)          // strptime refused a submission_time value
    | MissingKey(key: string)             // a dict lookup `item[key]` on an absent key
    | NoColon(line: string)               // `line.split(':', 1)[1]` on a line without ':'

  datatype Result<+T> = Ok(value: T) | Err(error: Error)
}
