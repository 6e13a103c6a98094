/** Small shared datatypes: optional values and HTTP-style replies. */
module Wrappers {

  /** A JavaScript value that may be `null`/`undefined`. */
  datatype Option<+T> = None | Some(value: T)

  /** The JSON body an Express handler sends: `{ error: ... }` or a payload. */
  datatype Body<+T> = Error(message: string) | Payload(value: T)

  /** A reply: HTTP status code plus JSON body. */
  datatype Reply<+T> = Reply(status: nat, body: Body<T>)
}
