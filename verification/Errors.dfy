/** The diagnostic record every ABI call fills in. */
module Errors {

  const OP_NONE := 0
  const OP_CLOCK_MONOTONIC := 1
  const OP_SIGACTION_QUERY_INT := 2
  const OP_SIGACTION_QUERY_TERM := 3
  const OP_SIGACTION_INSTALL_INT := 4
  const OP_SIGACTION_INSTALL_TERM := 5
  const OP_SIGACTION_RESTORE_INT := 6
  const OP_SIGACTION_RESTORE_TERM := 7
  const OP_PIPE_STDOUT := 11
  const OP_PIPE_STDERR := 12
  const OP_PIPE_SETUP := 13
  const OP_FD_CLOEXEC := 14
  const OP_FD_NONBLOCK := 15
  const OP_FORK := 16
  const OP_PARENT_SETPGID := 17
  const OP_POLL := 26
  const OP_READ_STDOUT := 27
  const OP_READ_STDERR := 28
  const OP_READ_SETUP := 29
  const OP_CLOSE_CHANNEL := 30
  const OP_GROUP_PROBE := 31
  const OP_GROUP_TERM := 32
  const OP_GROUP_KILL := 33
  const OP_WAITID := 34
  const OP_WAITPID := 35
  const OP_POLL_SET := 36

  datatype Error = Error(
    operation: nat,
    errno: int,
    cleanupOperation: nat,
    cleanupErrno: int,
    detail: int,
    subject: int)
  {
    /** Overwrites the primary diagnostic and leaves the cleanup one alone. */
    function Primary(op: nat, number: int, info: int, about: int): Error {
      Error(op, number, cleanupOperation, cleanupErrno, info, about)
    }

    /** Only the first cleanup diagnostic is kept. */
    function Cleanup(op: nat, number: int): Error {
      if cleanupOperation == OP_NONE then this.(cleanupOperation := op, cleanupErrno := number) else this
    }

    /** A diagnostic that grew out of `given` by cleanup diagnostics alone. */
    predicate Extends(given: Error) {
      && this == given.(cleanupOperation := cleanupOperation, cleanupErrno := cleanupErrno)
      && (given.cleanupOperation != OP_NONE ==> this == given)
    }

    predicate Silent() {
      operation == OP_NONE && cleanupOperation == OP_NONE
    }
  }

  const NO_ERROR := Error(0, 0, 0, 0, 0, 0)
}
