# Notes server: a verified model of the route handlers

This project models the HTTP API of a personal notes application. Users
register and log in. They then create, edit, delete, pin, list and search
their own notes. The model covers the nine route handlers of
`backend/index.js` and the document-store queries they make.

- `records.dfy` (module `Records`): users, notes and the session token.
  Ids are natural numbers handed out by the store.
- `tables.dfy` (module `Tables`): the store queries as operations on an
  in-memory table, in insertion order. `findOne`, `find`,
  `findOneAndDelete`, `findOneAndUpdate` with `new: true`, and the
  pinned-first sort.
- `responses.dfy` (module `Responses`): a response is a status and a body.
  The body is usually the JSON envelope `{ error, message, payload }`. The
  model keeps the handlers' deviations from that envelope:
  - a bare JSON string for the edit 404;
  - a plain-text `Unauthorized` for the profile 401;
  - no `error` field on the add-note 400s and on the profile response;
  - the key `mesage` for a login without password;
  - `error: false` on the pin route's 500.
- `guards.dfy` (module `Guards`): the required-field checks that run before
  any store access. They use JavaScript truthiness. A missing or empty
  string is falsy. An array is truthy even when empty.
- `notes_api.dfy` (module `NotesApi`): class `NoteStore` holds a users table
  and a notes table, with one method per route.
  - Each method returns the response and updates the tables in place.
  - `Valid()` is the store invariant. It says ids are unique, emails are
    unique, and every id lies below the next id to hand out.
  - Each protected route takes the caller's id, as resolved from the
    bearer token.
  - Each handler with a try block takes a `fault` flag. The flag stands for
    a store call that throws. The handler then answers 500 and the tables
    stay as they were.
- `walkthrough.dfy` (module `Walkthrough`): three client scenarios, each
  on a fresh store, that use only the handlers' contracts:
  - `RegisterTwice` registers the same email twice;
  - `NoteLifecycle` adds a note for some user, lets another user try to
    delete it, pins it and lists the owner's notes;
  - `DeleteThenList` adds a note, deletes it and lists again.

Two handler behaviours worth knowing:
- `/edit-note` rejects a body that only carries `isPinned`: the guard at
  backend/index.js:161 looks at title, content and tags only.
- `/get-user` answers a bare 401 when the token's id no longer names a
  user (backend/index.js:110-111).

## Model

| member | source | states |
|---|---|---|
| `Tables.FindOne` | backend/index.js:168-171 | `findOne`: the result is the position of a matching record with no match before it, and it is absent exactly when no record matches |
| `Tables.Find` | backend/index.js:290-296 | `find`: a record is in the result exactly when it is in the table and the filter accepts it, and it occurs there as often as in the table |
| `Tables.FindOneAndDelete` | backend/index.js:204-207 | removes and returns the first match; the table is one shorter and the records before and after it keep their order; without a match nothing changes |
| `Tables.FindOneAndUpdate` | backend/index.js:257-261 | rewrites the first match and returns the rewritten record (`new: true`); every other position is unchanged; without a match nothing changes |
| `Tables.RemoveByUniqueId` | backend/index.js:204-216 | with unique ids, deleting one note leaves exactly the notes with a different id, and ids stay unique |
| `Tables.PinnedFirstSorts` | backend/index.js:230-232 | the `sort({ isPinned: -1 })` result is a permutation of its input with every pinned note before every unpinned one |
| `Guards.CreateAccountGuard` | backend/index.js:27-39 | the request passes exactly when full name, email and password are all truthy; otherwise 400 with `error: true`, naming the first missing field in that order |
| `Guards.LoginGuard` | backend/index.js:73-80 | passes exactly when email and password are truthy; a missing email is a 400 "Email is required!"; a missing password is a 400 whose message sits under the key `mesage` |
| `Guards.AddNoteGuard` | backend/index.js:126-131 | passes exactly when title and content are truthy; the 400 rejections carry no `error` field |
| `Guards.EditNoteGuard` | backend/index.js:161-165 | rejects with 400 "No changes provided!" exactly when title, content and tags are all falsy; the pinned flag plays no part |
| `Guards.SearchGuard` | backend/index.js:284-288 | rejects with 400 "Search query is required!" exactly when the query is falsy |
| `NotesApi.Patched` | backend/index.js:181-184 | the edited note keeps its id and owner; title, content and tags change only when truthy, the pinned flag only when a boolean is supplied; an empty patch is the identity |
| `NotesApi.OthersNotesAreNotFound` | backend/index.js:168-175 | with unique ids, the owner-scoped lookup of a note that belongs to another user finds nothing, so that note reads as not found |
| `NotesApi.NoteStore.CreateAccount` | backend/index.js:25-68 | a failed guard or a taken email leaves the users table unchanged; otherwise exactly one user with a fresh id and the supplied fields is appended, and the answer carries `error: false`, that user and a token for its id and email; emails stay unique |
| `NotesApi.NoteStore.Login` | backend/index.js:70-101 | a failed guard answers the guard's 400; an unknown email answers `error: true` "User not found!"; the answer is a success exactly when some user has that email and that password, and then it carries a token for that user; a known email with a wrong password answers 400 "Invalid Credentials"; the store is not modified |
| `NotesApi.NoteStore.GetUser` | backend/index.js:105-122 | answers 200 exactly when the caller's id names a user, with that user's name, email and id; otherwise a bare 401 |
| `NotesApi.NoteStore.AddNote` | backend/index.js:124-155 | a failed guard or a store fault adds nothing; otherwise exactly one note is appended, owned by the caller, with a fresh id, the given title and content, tags defaulting to `[]` and the pinned flag true only for a supplied `true` |
| `NotesApi.NoteStore.EditNote` | backend/index.js:157-199 | a failed guard, a fault or no note matching both id and caller leaves the notes unchanged, the last with a bare-string 404; otherwise only the matching note is replaced, by its `Patched` form, and returned |
| `NotesApi.NoteStore.DeleteNote` | backend/index.js:201-226 | a fault or no note matching both id and caller leaves the notes unchanged (404); otherwise exactly that note is removed, the rest keep their order, and no note with that id remains |
| `NotesApi.NoteStore.GetAllNotes` | backend/index.js:228-251 | the listed notes are a permutation of the caller's notes, exactly the caller's notes, with every pinned note first; an empty list is still `error: false` with message "No notes found"; the store is not modified |
| `NotesApi.NoteStore.UpdateNotePinned` | backend/index.js:253-279 | no note matching both id and caller gives 404 and no change; otherwise only that note's pinned flag is set, and the updated note is returned; a fault answers 500 with `error: false` |
| `NotesApi.NoteStore.SearchNotes` | backend/index.js:281-308 | a falsy query gives 400; otherwise a note is returned exactly when it is the caller's and its title or content matches the query, as often as it occurs in the table; the store is not modified |
| `Walkthrough.RegisterTwice` | backend/index.js:41-44 | registering the same email twice: the first call succeeds with a token for that email, the second answers "User already exist" |
| `Walkthrough.NoteLifecycle` | backend/index.js:253-272 | after adding a note, another user's delete of it is a 404; once pinned, the owner's list holds exactly that note, pinned |
| `Walkthrough.DeleteThenList` | backend/index.js:233-238 | after the only note is deleted, the list is a success with no notes and the message "No notes found" |

## Left out

- Express setup, CORS, the store connection, configuration loading and `app.listen`: framework plumbing and I/O.
- Token signing and expiry: the token is the plain value `Token(userId, email)`. The secret, the signature and the 3600-minute validity are not modelled.
- The token-checking middleware (`./utilities` is not part of this model). Protected routes receive the caller's id directly.
- Regular-expression matching in `/search-notes`: `SearchNotes` takes the match test as a parameter, `matches(query, text)`. An invalid pattern throws inside the try block; that case is covered by the `fault` flag.
- The `createdOn` timestamps: their defaults live in model files that are not part of this model.
- Store failures in the handlers with a try block are a `fault` flag passed in. Where in a handler the store throws is not modelled. Every such failure leaves the tables unchanged.
- NotesApi.NoteStore.CreateAccount, NotesApi.NoteStore.Login, NotesApi.NoteStore.GetUser: store failures are not modelled. These handlers have no try block (backend/index.js:41, 52, 81, 108), so a throwing store call is an unhandled rejection and no response is sent.
- NotesApi.NoteStore.UpdateNotePinned: a pin request without `isPinned` is accepted by the handler (backend/index.js:255-259 has no guard) and is not modelled, because what `$set` does with an undefined value is up to the store library.
- ObjectId casting of the path's note id, and the `.toString()` on the caller's id. Ids are natural numbers, so a malformed id, which would throw and give a 500, is not modelled.
- The order within pinned and within unpinned notes: the store leaves it open. `GetAllNotes` promises only the permutation and the pinned-first order. The implementation keeps table order.
- Request fields of the wrong JSON type: strings are `Option<string>`, tags `Option<seq<string>>`, and the pinned flag `Option<bool>` or, on the pin route, `bool` (see the line above for a missing flag there). Mongoose's casting of other values happens in model files that are not part of this model.
- `async`/`await` interleaving: each request runs as one sequential operation on the store.
- The React pages and components (`Home.jsx`, `PasswordInput.jsx`): presentational code and client-side state.
