/** What a request handler hands back to the web framework. */
module Responses {
  import opened Users

  /** The JSON body of a reply. */
  datatype Body =
    | Message(text: string)
    | Registered(text: string, userId: nat)
    | LoggedIn(text: string, token: string, user: PublicUser)
    | FieldErrors(errors: map<string, seq<string>>)

  /** A JSON reply with its HTTP status, or an exception that escaped the handler
      (which the framework turns into a 500 page). */
  datatype Response =
    | Reply(status: int, body: Body)
    | Uncaught(exception: string)

  /** What a request guard decides: answer on the handler's behalf, or call the
      handler with `arg` as its first argument. */
  datatype Gate<+T> = Halt(response: Response) | Pass(arg: T)
}
