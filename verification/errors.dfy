/** Failure-carrying wrappers shared by every module of the model.

    The host reports every failure by throwing `std::runtime_error`; each
    distinct throw site becomes one constructor of `Error`, so that a
    contract can say WHICH failure an operation reports.
 */
module Errors {

  import opened Ints

  /** The failures the host and the guest library can report. */
  datatype Error =
    | BadMemory                       // check_bounds: "bad memory"
    | AllocWrongType                  // alloc: "cb_alloc returned incorrect type"
    | Aborted                         // abort: "called abort"
    | AssertFailed(text: seq<byte>)   // eosio_assert_message with a false test
    | EmptyDatabase                   // retry_loop: "database is empty"
    | TooManyForks                    // retry_loop: "too many fork events during request"
    | UnknownNamespace(ns: u64)       // query: "unknown namespace: ..."
    | ReadPastEnd                     // a decoder ran out of input
    | BadVaruint                      // a varuint32 longer than five bytes
    | External(reason: string)        // reported by the VM, module store or storage engine

  datatype Option<+T> = None | Some(value: T)

  datatype Result<+T> = Ok(value: T) | Fail(error: Error) {
    predicate IsFailure() { Fail? }

    function PropagateFailure<U>(): Result<U>
      requires Fail?
    {
      Fail(error)
    }

    function Extract(): T
      requires Ok?
    {
      value
    }
  }

  /** A check that either passes or fails, carrying no value. */
  datatype Outcome = Pass | Failed(error: Error) {
    predicate IsFailure() { Failed? }

    function PropagateFailure<U>(): Result<U>
      requires Failed?
    {
      Fail(error)
    }
  }
}
