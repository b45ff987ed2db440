/**
 * How one `docker ps` run through `Gio.Subprocess` ends, as the callers see it:
 * `Gio.Subprocess.new` throws, or `communicate_utf8_finish` throws, or the
 * process exits and `get_successful()` says whether it exited with status 0.
 */
module Subprocess {

  datatype Outcome =
    | SpawnFailed(message: string)
    | FinishFailed(message: string)
    | Exited(successful: bool, stdout: string)
  {
    /** The only outcome whose stdout the callers go on to read. */
    predicate Succeeded() {
      Exited? && successful
    }
  }
}
