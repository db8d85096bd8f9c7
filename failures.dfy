/** The failures the harness catches and raises. */
module Failures {
  import opened Wrappers

  /**
   * A `Throwable` caught from a task: `id` stands for its object identity and
   * `text` for what its `toString()` renders.
   */
  datatype Thrown = Thrown(id: nat, text: string)

  /** The exceptions the harness itself throws. */
  datatype Error =
    | RuntimeException(message: string, cause: Option<Thrown>)
    | IllegalArgumentException(message: string)

  /** How a call that asserts ends: normally, or by throwing `error`. */
  datatype Verdict = Passed | Raised(error: Error)
}
