/** What a route handler sends back: an HTTP status and a body. Most bodies
    are the JSON envelope { error, message, <payload> }; a few handlers
    deviate from it, and those deviations are kept. */
module Responses {
  import opened Records

  /** The operation-specific part of an envelope. */
  datatype Payload =
    | NoPayload
    | Registered(newUser: User, accessToken: Token)
    | LoggedIn(email: string, accessToken: Token)
    | Profile(fullName: string, email: string, id: Id)
    | OneNote(note: Note)
    | NoteList(notes: seq<Note>)

  datatype Body =
    /** `res.json({ error, <messageKey>: message, ...payload })`; `error` is
        None where the handler leaves the field out. */
    | Envelope(error: Option<bool>, messageKey: string, message: string, payload: Payload)
    /** `res.json("...")`: a bare JSON string, no envelope. */
    | JsonString(text: string)
    /** `res.sendStatus(code)`: the status's reason phrase as plain text. */
    | PlainText(text: string)

  datatype Response = Response(status: nat, body: Body)

  const MessageKey := "message"

  /** The key the login handler writes when the password is missing. */
  const MisspelledMessageKey := "mesage"

  /** A response whose envelope reports success (`error: false`). */
  predicate IsSuccess(r: Response)
  {
    r.body.Envelope? && r.body.error == Some(false)
  }

  /** `res.json({...})`: status 200. */
  function Ok(error: bool, message: string, payload: Payload): Response
  {
    Response(200, Envelope(Some(error), MessageKey, message, payload))
  }

  /** `res.status(code).json({ error: true, message })`. */
  function Failure(status: nat, message: string): Response
  {
    Response(status, Envelope(Some(true), MessageKey, message, NoPayload))
  }

  /** The catch-all answer to a store failure in most handlers. */
  const InternalError := Failure(500, "Internal server error")
}
