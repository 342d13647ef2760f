/** The Option and remote-outcome types shared by every module of the model. */
module Wrappers {

  /** A value that may be absent: JavaScript's null / undefined. */
  datatype Option<T> = None | Some(value: T)

  /**
   * The outcome of one call to a remote collaborator (the REST services):
   * either the resolved data or the rejection's message. A message that is
   * the empty string stands for an error object without a `message`.
   */
  datatype Remote<T> = Success(data: T) | Failure(msg: string)

  /** `err.message || fallback`: the message shown when a call is rejected. */
  function ErrorText(msg: string, fallback: string): (r: string)
    ensures msg != "" ==> r == msg
    ensures msg == "" ==> r == fallback
  {
    if msg != "" then msg else fallback
  }
}
