/** The route handlers of the notes server, as methods on an in-memory
    store holding the users table and the notes table. Each protected
    route receives the caller's id, already taken from a verified token.
    A `fault` argument stands for a store call that throws inside a
    handler's try block; every handler answers it with a 500 and leaves the
    tables as they were. */
module NotesApi {
  import opened Records
  import opened Tables
  import opened Responses
  import opened Guards

  // Store filters.

  /** `{ email: email }` */
  function HasEmail(email: string): User -> bool
  {
    (u: User) => u.email == email
  }

  /** `{ _id: id }` on the users table. */
  function HasUserId(id: Id): User -> bool
  {
    (u: User) => u.id == id
  }

  /** `{ _id: noteId, userId: caller }`: a note is found only by its owner. */
  function OwnedBy(noteId: Id, caller: Id): Note -> bool
  {
    (n: Note) => n.id == noteId && n.userId == caller
  }

  /** `{ userId: caller }` */
  function BelongsTo(caller: Id): Note -> bool
  {
    (n: Note) => n.userId == caller
  }

  /** `{ userId: caller, $or: [{ title: re }, { content: re }] }`, where
      `matches(query, text)` is the case-insensitive regular expression
      test of `text` against `query`. */
  function SearchHit(caller: Id, query: string, matches: (string, string) -> bool): Note -> bool
  {
    (n: Note) => n.userId == caller && (matches(query, n.title) || matches(query, n.content))
  }

  /** `{ $set: { isPinned: isPinned } }` */
  function SetPinned(isPinned: bool): Note -> Note
  {
    (n: Note) => n.(isPinned := isPinned)
  }

  predicate EmailTaken(users: seq<User>, email: string)
  {
    exists u :: u in users && u.email == email
  }

  predicate PasswordMatches(users: seq<User>, email: string, password: string)
  {
    exists u :: u in users && u.email == email && u.password == password
  }

  /** The partial update of `/edit-note`: title, content and tags replace
      the stored ones only when truthy, the pinned flag only when it is a
      boolean. The note keeps its identity and its owner, and an update
      that supplies nothing leaves the note as it was. */
  function Patched(n: Note, title: Option<string>, content: Option<string>,
                   tags: Option<seq<string>>, isPinned: Option<bool>): (m: Note)
    ensures m.id == n.id && m.userId == n.userId
    ensures m.title == (if Given(title) then title.value else n.title)
    ensures m.content == (if Given(content) then content.value else n.content)
    ensures m.tags == (if TagsGiven(tags) then tags.value else n.tags)
    ensures m.isPinned == (if isPinned.Some? then isPinned.value else n.isPinned)
    ensures !Given(title) && !Given(content) && !TagsGiven(tags) && isPinned.None? ==> m == n
  {
    Note(n.id,
         if Given(title) then title.value else n.title,
         if Given(content) then content.value else n.content,
         if TagsGiven(tags) then tags.value else n.tags,
         if isPinned.Some? then isPinned.value else n.isPinned,
         n.userId)
  }

  /** A caller looking up, by id, a note that belongs to someone else finds
      nothing: the note reads as absent, not as forbidden. */
  lemma OthersNotesAreNotFound(notes: seq<Note>, noteId: Id, caller: Id, k: nat)
    requires NoteIdsUnique(notes)
    requires k < |notes| && notes[k].id == noteId && notes[k].userId != caller
    ensures FindOne(notes, OwnedBy(noteId, caller)).None?
  {
  }

  class NoteStore {
    var users: seq<User>
    var notes: seq<Note>
    /** The next identity the store hands out. */
    var nextId: Id

    ghost predicate Valid()
      reads this
    {
      && (forall u :: u in users ==> u.id < nextId)
      && (forall n :: n in notes ==> n.id < nextId)
      && UserIdsUnique(users)
      && EmailsUnique(users)
      && NoteIdsUnique(notes)
    }

    constructor ()
      ensures Valid() && users == [] && notes == []
    {
      users, notes, nextId := [], [], 0;
    }

    /** `POST /create-account` */
    method CreateAccount(fullName: Option<string>, email: Option<string>, password: Option<string>)
      returns (r: Response)
      requires Valid()
      modifies this
      ensures Valid() && notes == old(notes)
      ensures CreateAccountGuard(fullName, email, password).Some? ==>
        r == CreateAccountGuard(fullName, email, password).value && users == old(users)
      ensures CreateAccountGuard(fullName, email, password).None? && EmailTaken(old(users), email.value) ==>
        r == Ok(true, "User already exist", NoPayload) && users == old(users)
      ensures CreateAccountGuard(fullName, email, password).None? && !EmailTaken(old(users), email.value) ==>
        && |users| == |old(users)| + 1
        && users[..|old(users)|] == old(users)
        && var u := users[|old(users)|];
        && u.fullName == fullName.value && u.email == email.value && u.password == password.value
        && (forall v :: v in old(users) ==> v.id != u.id)
        && r == Ok(false, " Registration Successful", Registered(u, Token(u.id, u.email)))
    {
      var guard := CreateAccountGuard(fullName, email, password);
      if guard.Some? {
        return guard.value;
      }
      var isUser := FindOne(users, HasEmail(email.value));
      if isUser.Some? {
        return Ok(true, "User already exist", NoPayload);
      }
      var newUser := User(nextId, fullName.value, email.value, password.value);
      users := users + [newUser];
      nextId := nextId + 1;
      var accessToken := Token(newUser.id, newUser.email);
      r := Ok(false, " Registration Successful", Registered(newUser, accessToken));
    }

    /** `POST /login`. Passwords are compared as stored, in plain text. */
    method Login(email: Option<string>, password: Option<string>) returns (r: Response)
      requires Valid()
      ensures LoginGuard(email, password).Some? ==> r == LoginGuard(email, password).value
      ensures LoginGuard(email, password).None? && !EmailTaken(users, email.value) ==>
        r == Ok(true, "User not found!", NoPayload)
      ensures IsSuccess(r) <==>
        LoginGuard(email, password).None? && PasswordMatches(users, email.value, password.value)
      ensures IsSuccess(r) ==>
        exists u :: u in users && u.email == email.value && u.password == password.value &&
          r == Ok(false, "Login Successful", LoggedIn(email.value, Token(u.id, u.email)))
      ensures LoginGuard(email, password).None? && EmailTaken(users, email.value) && !IsSuccess(r) ==>
        r == Failure(400, "Invalid Credentials")
    {
      var guard := LoginGuard(email, password);
      if guard.Some? {
        return guard.value;
      }
      var found := FindOne(users, HasEmail(email.value));
      if found.None? {
        return Ok(true, "User not found!", NoPayload);
      }
      var userInfo := users[found.value];
      if userInfo.email == email.value && userInfo.password == password.value {
        var accessToken := Token(userInfo.id, userInfo.email);
        r := Ok(false, "Login Successful", LoggedIn(email.value, accessToken));
      } else {
        forall u | u in users && u.email == email.value
          ensures u == userInfo
        {
          var k :| 0 <= k < |users| && users[k] == u;
          assert !(k < found.value || found.value < k);
        }
        r := Failure(400, "Invalid Credentials");
      }
    }

    /** `GET /get-user`: the caller's profile, or a bare 401 when the id
        from the token no longer names a user. */
    method GetUser(caller: Id) returns (r: Response)
      ensures (exists u :: u in users && u.id == caller) <==> r.status == 200
      ensures r.status == 200 ==>
        exists u :: u in users && u.id == caller &&
          r == Response(200, Envelope(None, MessageKey, "", Profile(u.fullName, u.email, u.id)))
      ensures r.status != 200 ==> r == Response(401, PlainText("Unauthorized"))
    {
      var found := FindOne(users, HasUserId(caller));
      if found.None? {
        return Response(401, PlainText("Unauthorized"));
      }
      var isUser := users[found.value];
      r := Response(200, Envelope(None, MessageKey, "", Profile(isUser.fullName, isUser.email, isUser.id)));
    }

    /** `POST /add-note`: a missing tags array defaults to [], and the
        pinned flag is set only by a literal true. */
    method AddNote(caller: Id, title: Option<string>, content: Option<string>,
                   tags: Option<seq<string>>, isPinned: Option<bool>, fault: bool)
      returns (r: Response)
      requires Valid()
      modifies this
      ensures Valid() && users == old(users)
      ensures AddNoteGuard(title, content).Some? ==>
        r == AddNoteGuard(title, content).value && notes == old(notes)
      ensures AddNoteGuard(title, content).None? && fault ==>
        r == InternalError && notes == old(notes)
      ensures AddNoteGuard(title, content).None? && !fault ==>
        && |notes| == |old(notes)| + 1
        && notes[..|old(notes)|] == old(notes)
        && var n := notes[|old(notes)|];
        && n.userId == caller && n.title == title.value && n.content == content.value
        && n.tags == (if tags.Some? then tags.value else [])
        && n.isPinned == (isPinned == Some(true))
        && (forall m :: m in old(notes) ==> m.id != n.id)
        && r == Ok(false, "Note added successfully", OneNote(n))
    {
      var guard := AddNoteGuard(title, content);
      if guard.Some? {
        return guard.value;
      }
      if fault {
        return InternalError;
      }
      var note := Note(nextId, title.value, content.value,
                       if tags.Some? then tags.value else [],
                       if isPinned.Some? then isPinned.value else false,
                       caller);
      notes := notes + [note];
      nextId := nextId + 1;
      r := Ok(false, "Note added successfully", OneNote(note));
    }

    /** `PUT /edit-note/:noteId`: patches the caller's note field by field
        and saves it; another user's note reads as not found. */
    method EditNote(caller: Id, noteId: Id, title: Option<string>, content: Option<string>,
                    tags: Option<seq<string>>, isPinned: Option<bool>, fault: bool)
      returns (r: Response)
      requires Valid()
      modifies this
      ensures Valid() && users == old(users)
      ensures EditNoteGuard(title, content, tags).Some? ==>
        r == EditNoteGuard(title, content, tags).value && notes == old(notes)
      ensures EditNoteGuard(title, content, tags).None? && fault ==>
        r == InternalError && notes == old(notes)
      ensures EditNoteGuard(title, content, tags).None? && !fault &&
              FindOne(old(notes), OwnedBy(noteId, caller)).None? ==>
        r == Response(404, JsonString("No note found!")) && notes == old(notes)
      ensures EditNoteGuard(title, content, tags).None? && !fault &&
              FindOne(old(notes), OwnedBy(noteId, caller)).Some? ==>
        var i := FindOne(old(notes), OwnedBy(noteId, caller)).value;
        && notes == old(notes)[i := Patched(old(notes)[i], title, content, tags, isPinned)]
        && r == Ok(false, "Note updated successfully.", OneNote(notes[i]))
    {
      var guard := EditNoteGuard(title, content, tags);
      if guard.Some? {
        return guard.value;
      }
      if fault {
        return InternalError;
      }
      var found := FindOne(notes, OwnedBy(noteId, caller));
      if found.None? {
        return Response(404, JsonString("No note found!"));
      }
      var i := found.value;
      var note := notes[i];
      if Given(title) { note := note.(title := title.value); }
      if Given(content) { note := note.(content := content.value); }
      if TagsGiven(tags) { note := note.(tags := tags.value); }
      if isPinned.Some? { note := note.(isPinned := isPinned.value); }
      notes := notes[i := note];
      r := Ok(false, "Note updated successfully.", OneNote(note));
    }

    /** `DELETE /delete-note/:noteId`: removes the caller's note with that
        id and nothing else. */
    method DeleteNote(caller: Id, noteId: Id, fault: bool) returns (r: Response)
      requires Valid()
      modifies this
      ensures Valid() && users == old(users)
      ensures fault ==> r == InternalError && notes == old(notes)
      ensures !fault && FindOne(old(notes), OwnedBy(noteId, caller)).None? ==>
        r == Failure(404, "Note not found or you are not authorized!") && notes == old(notes)
      ensures !fault && FindOne(old(notes), OwnedBy(noteId, caller)).Some? ==>
        && r == Ok(false, "Note deleted successfully.", NoPayload)
        && notes == FindOneAndDelete(old(notes), OwnedBy(noteId, caller)).1
        && (forall n :: n in notes <==> n in old(notes) && n.id != noteId)
    {
      if fault {
        return InternalError;
      }
      var deleted := FindOneAndDelete(notes, OwnedBy(noteId, caller));
      if deleted.0.None? {
        return Failure(404, "Note not found or you are not authorized!");
      }
      RemoveByUniqueId(notes, FindOne(notes, OwnedBy(noteId, caller)).value);
      notes := deleted.1;
      r := Ok(false, "Note deleted successfully.", NoPayload);
    }

    /** `GET /get-all-notes`: all of the caller's notes, pinned ones first.
        No notes is still a success. */
    method GetAllNotes(caller: Id, fault: bool) returns (r: Response)
      ensures fault ==> r == InternalError
      ensures !fault ==> r.body.Envelope? && r.body.payload.NoteList?
      ensures !fault ==> r == Ok(false, r.body.message, r.body.payload)
      ensures !fault ==> multiset(r.body.payload.notes) == multiset(Find(notes, BelongsTo(caller)))
      ensures !fault ==> forall n :: n in r.body.payload.notes <==> n in notes && n.userId == caller
      ensures !fault ==> PinnedBeforeUnpinned(r.body.payload.notes)
      ensures !fault ==>
        r.body.message == if r.body.payload.notes == [] then "No notes found" else "Notes fetched successfully."
    {
      if fault {
        return InternalError;
      }
      var owned := Find(notes, BelongsTo(caller));
      var sorted := PinnedFirst(owned);
      PinnedFirstSorts(owned);
      if |sorted| == 0 {
        r := Ok(false, "No notes found", NoteList([]));
      } else {
        r := Ok(false, "Notes fetched successfully.", NoteList(sorted));
      }
    }

    /** `PUT /update-note-pinned/:noteId`: sets the pinned flag of the
        caller's note and returns the updated note. Its 500 answer says
        `error: false`. */
    method UpdateNotePinned(caller: Id, noteId: Id, isPinned: bool, fault: bool) returns (r: Response)
      requires Valid()
      modifies this
      ensures Valid() && users == old(users)
      ensures fault ==>
        r == Response(500, Envelope(Some(false), MessageKey, "Internal server error", NoPayload)) &&
        notes == old(notes)
      ensures !fault && FindOne(old(notes), OwnedBy(noteId, caller)).None? ==>
        r == Failure(404, "Note not found!") && notes == old(notes)
      ensures !fault && FindOne(old(notes), OwnedBy(noteId, caller)).Some? ==>
        var i := FindOne(old(notes), OwnedBy(noteId, caller)).value;
        && notes == old(notes)[i := old(notes)[i].(isPinned := isPinned)]
        && r == Ok(false, "Pin value changed successfully", OneNote(notes[i]))
    {
      if fault {
        return Response(500, Envelope(Some(false), MessageKey, "Internal server error", NoPayload));
      }
      var updated := FindOneAndUpdate(notes, OwnedBy(noteId, caller), SetPinned(isPinned));
      if updated.0.None? {
        return Failure(404, "Note not found!");
      }
      notes := updated.1;
      r := Ok(false, "Pin value changed successfully", OneNote(updated.0.value));
    }

    /** `GET /search-notes?query=...`: the caller's notes whose title or
        content matches the query. `fault` also covers a query that is not
        a valid regular expression. */
    method SearchNotes(caller: Id, query: Option<string>, matches: (string, string) -> bool, fault: bool)
      returns (r: Response)
      ensures SearchGuard(query).Some? ==> r == SearchGuard(query).value
      ensures SearchGuard(query).None? && fault ==> r == Failure(500, " Internal server error")
      ensures SearchGuard(query).None? && !fault ==>
        && r.body.Envelope? && r.body.payload.NoteList?
        && r == Ok(false, "Searched notes retrieved successfully.", r.body.payload)
        && (forall n :: n in r.body.payload.notes <==>
              n in notes && n.userId == caller && (matches(query.value, n.title) || matches(query.value, n.content)))
        && (forall n :: multiset(r.body.payload.notes)[n] ==
              if n.userId == caller && (matches(query.value, n.title) || matches(query.value, n.content))
              then multiset(notes)[n] else 0)
    {
      var guard := SearchGuard(query);
      if guard.Some? {
        return guard.value;
      }
      if fault {
        return Failure(500, " Internal server error");
      }
      var matchingNotes := Find(notes, SearchHit(caller, query.value, matches));
      r := Ok(false, "Searched notes retrieved successfully.", NoteList(matchingNotes));
    }
  }
}
