/** Three client scenarios of the route handlers, each on a fresh store:
    a repeated registration, a note's life up to a pinned listing with a
    second user probing it, and a deletion followed by an empty listing.
    Everything asserted here follows from the handlers' contracts. */
module Walkthrough {
  import opened Records
  import opened Responses
  import opened Guards
  import opened NotesApi

  /** Registering the same email twice: the first succeeds with a token for
      the new account, the second is refused and adds no account. */
  method RegisterTwice() returns (first: Response, again: Response)
    ensures IsSuccess(first) && first.body.payload.Registered?
    ensures first.body.payload.accessToken.email == "ada@x.com"
    ensures again == Ok(true, "User already exist", NoPayload)
  {
    var store := new NoteStore();
    assert CreateAccountGuard(Some("Ada"), Some("ada@x.com"), Some("secret")).None?;
    first := store.CreateAccount(Some("Ada"), Some("ada@x.com"), Some("secret"));
    assert EmailTaken(store.users, "ada@x.com");
    again := store.CreateAccount(Some("Ada"), Some("ada@x.com"), Some("secret"));
    assert |store.users| == 1;
  }

  /** Add a note, let another user try to delete it, pin it and list the
      notes: the owner sees the one note, pinned. */
  method NoteLifecycle(ada: Id) returns (probe: Response, listed: Response)
    ensures probe == Failure(404, "Note not found or you are not authorized!")
    ensures IsSuccess(listed) && listed.body.message == "Notes fetched successfully."
    ensures listed.body.payload.NoteList? && |listed.body.payload.notes| == 1
    ensures listed.body.payload.notes[0].isPinned
  {
    var store := new NoteStore();
    assert AddNoteGuard(Some("T1"), Some("C1")).None?;
    var added := store.AddNote(ada, Some("T1"), Some("C1"), None, None, false);
    var note := added.body.payload.note;
    assert store.notes == [note] && !note.isPinned && note.userId == ada;

    OthersNotesAreNotFound(store.notes, note.id, ada + 1, 0);
    probe := store.DeleteNote(ada + 1, note.id, false);

    var pinnedNote := note.(isPinned := true);
    assert OwnedBy(note.id, ada)(store.notes[0]);
    var pinned := store.UpdateNotePinned(ada, note.id, true, false);
    assert store.notes == [pinnedNote];

    listed := store.GetAllNotes(ada, false);
    var shown := listed.body.payload.notes;
    assert |shown| == 1 && shown[0] == pinnedNote by {
      assert Tables.Find(store.notes, BelongsTo(ada)) == [pinnedNote];
      assert multiset(shown) == multiset{pinnedNote};
      assert |shown| == |multiset(shown)| == 1;
      assert shown[0] in multiset(shown);
    }
  }

  /** Add a note, delete it and list the notes: an empty list is still a
      success. */
  method DeleteThenList(ada: Id) returns (deleted: Response, emptied: Response)
    ensures deleted == Ok(false, "Note deleted successfully.", NoPayload)
    ensures emptied == Ok(false, "No notes found", NoteList([]))
  {
    var store := new NoteStore();
    assert AddNoteGuard(Some("T1"), Some("C1")).None?;
    var added := store.AddNote(ada, Some("T1"), Some("C1"), None, None, false);
    var note := added.body.payload.note;
    assert store.notes == [note];
    assert Tables.FindOne(store.notes, OwnedBy(note.id, ada)) == Some(0);
    deleted := store.DeleteNote(ada, note.id, false);
    assert store.notes == [];
    emptied := store.GetAllNotes(ada, false);
    assert Tables.Find(store.notes, BelongsTo(ada)) == [];
    assert |emptied.body.payload.notes| == |multiset(emptied.body.payload.notes)| == 0;
  }
}
