/** The records kept by the notes server: users, notes and the session
    token handed out on registration and login. */
module Records {

  datatype Option<T> = None | Some(value: T)

  /** A document identity (a Mongo ObjectId); the store hands them out. */
  type Id = nat

  /** A registered account. The password is kept exactly as supplied. */
  datatype User = User(id: Id, fullName: string, email: string, password: string)

  /** A note, owned by the user whose id is `userId`. */
  datatype Note = Note(
    id: Id,
    title: string,
    content: string,
    tags: seq<string>,
    isPinned: bool,
    userId: Id)

  /** A signed session token. Only its two claims are modelled; the
      signature and the 3600-minute expiry are not. */
  datatype Token = Token(userId: Id, email: string)

  predicate UserIdsUnique(users: seq<User>)
  {
    forall i, j :: 0 <= i < j < |users| ==> users[i].id != users[j].id
  }

  /** No two accounts share an email address. */
  predicate EmailsUnique(users: seq<User>)
  {
    forall i, j :: 0 <= i < j < |users| ==> users[i].email != users[j].email
  }

  predicate NoteIdsUnique(notes: seq<Note>)
  {
    forall i, j :: 0 <= i < j < |notes| ==> notes[i].id != notes[j].id
  }
}
