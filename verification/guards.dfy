/** The required-field checks the handlers run on a request before they
    touch the store. A request field is `None` when the client left it out
    (or sent null); the checks use JavaScript truthiness. */
module Guards {
  import opened Records
  import opened Responses

  /** A string field is truthy when it is present and not empty. */
  predicate Given(s: Option<string>)
  {
    s.Some? && s.value != ""
  }

  /** An array is truthy even when it is empty: only a missing one is falsy. */
  predicate TagsGiven(tags: Option<seq<string>>)
  {
    tags.Some?
  }

  /** The checks of `/create-account`: None lets the request through; a
      rejection names the first missing field, in the order full name,
      email, password. */
  function CreateAccountGuard(fullName: Option<string>, email: Option<string>, password: Option<string>): (r: Option<Response>)
    ensures r.None? <==> Given(fullName) && Given(email) && Given(password)
    ensures r.Some? ==> r.value.status == 400 && r.value.body.Envelope? && r.value.body.error == Some(true)
    ensures !Given(fullName) ==> r == Some(Failure(400, "Full name is required!"))
    ensures Given(fullName) && !Given(email) ==> r == Some(Failure(400, "Email is required!"))
    ensures Given(fullName) && Given(email) && !Given(password) ==> r == Some(Failure(400, "Password is required!"))
  {
    if !Given(fullName) then Some(Failure(400, "Full name is required!"))
    else if !Given(email) then Some(Failure(400, "Email is required!"))
    else if !Given(password) then Some(Failure(400, "Password is required!"))
    else None
  }

  /** The checks of `/login`. A missing password is reported under the
      misspelled key "mesage", so a client reading "message" sees nothing. */
  function LoginGuard(email: Option<string>, password: Option<string>): (r: Option<Response>)
    ensures r.None? <==> Given(email) && Given(password)
    ensures r.Some? ==> r.value.status == 400 && r.value.body.Envelope? && r.value.body.error == Some(true)
    ensures !Given(email) ==> r == Some(Failure(400, "Email is required!"))
    ensures Given(email) && !Given(password) ==>
      r.value.body.messageKey == MisspelledMessageKey && r.value.body.message == "Password is required!"
  {
    if !Given(email) then Some(Failure(400, "Email is required!"))
    else if !Given(password) then
      Some(Response(400, Envelope(Some(true), MisspelledMessageKey, "Password is required!", NoPayload)))
    else None
  }

  /** The checks of `/add-note`. Its rejections carry no `error` field. */
  function AddNoteGuard(title: Option<string>, content: Option<string>): (r: Option<Response>)
    ensures r.None? <==> Given(title) && Given(content)
    ensures r.Some? ==> r.value.status == 400 && r.value.body.Envelope? && r.value.body.error.None?
    ensures !Given(title) ==> r.value.body.message == "Title is required"
    ensures Given(title) && !Given(content) ==> r.value.body.message == "Content is required"
  {
    if !Given(title) then Some(Response(400, Envelope(None, MessageKey, "Title is required", NoPayload)))
    else if !Given(content) then Some(Response(400, Envelope(None, MessageKey, "Content is required", NoPayload)))
    else None
  }

  /** The check of `/edit-note`: at least one of title, content and tags
      must be truthy. The pinned flag is not consulted, so a request that
      only changes it is rejected. */
  function EditNoteGuard(title: Option<string>, content: Option<string>, tags: Option<seq<string>>): (r: Option<Response>)
    ensures r.Some? <==> !Given(title) && !Given(content) && !TagsGiven(tags)
    ensures r.Some? ==> r.value == Failure(400, "No changes provided!")
  {
    if !Given(title) && !Given(content) && !TagsGiven(tags) then Some(Failure(400, "No changes provided!"))
    else None
  }

  /** The check of `/search-notes`: the query must be truthy. */
  function SearchGuard(query: Option<string>): (r: Option<Response>)
    ensures r.Some? <==> !Given(query)
    ensures r.Some? ==> r.value == Failure(400, "Search query is required!")
  {
    if !Given(query) then Some(Failure(400, "Search query is required!")) else None
  }
}
