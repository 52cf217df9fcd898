/** Child processes as the supervisors see them. */
module Processes {

  /** A process handle; `alive` stands for "poll() is None". */
  datatype Process = Process(pid: int, alive: bool)

  /** What `Popen` did: a fresh, running process, or one of the two failures
      the supervisors tell apart (executable missing, anything else). */
  datatype Launch = Launched(pid: int) | NotFound | OtherError
}
