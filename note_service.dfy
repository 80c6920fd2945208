/** The note service: guard rules on top of the note store. */
module NoteService {
  import opened Wrappers
  import opened NoteRepository
  import JsText

  /** The errors the service throws. */
  datatype NoteError = NoteNotFound | EmptyContent

  function Message(e: NoteError): string
  {
    match e
    case NoteNotFound => "Note not found"
    case EmptyContent => "Note content cannot be empty"
  }

  /** `!content.trim()`: the content is empty once whitespace is trimmed. */
  predicate IsBlank(content: string)
  {
    JsText.Trim(content) == []
  }

  /** Blank content is exactly content made only of whitespace. */
  lemma BlankIffWhitespace(content: string)
    ensures IsBlank(content) <==> JsText.AllWhitespace(content)
  {
    JsText.TrimEmptyIff(content);
  }

  /** `getAllNotes`: the stored list as it is. */
  method GetAllNotes(store: NoteStore) returns (r: seq<Note>)
    requires store.Valid()
    ensures r == store.notes
  {
    r := store.notes;
  }

  /** `getNoteById`: the note with the id, or the not-found error. */
  method GetNoteById(store: NoteStore, id: int) returns (r: Result<Note, NoteError>)
    requires store.Valid()
    ensures r.Failure? <==> Position(store.notes, id) == -1
    ensures r.Failure? ==> r.error == NoteNotFound
    ensures r.Success? ==> r.value == store.notes[Position(store.notes, id)]
  {
    var found := store.FindById(id);
    if found.None? {
      return Failure(NoteNotFound);
    }
    PositionOfStored(store.notes, Position(store.notes, id));
    r := Success(found.value);
  }

  /** `createNote`: blank content is refused and the store is left untouched; otherwise the content,
      untrimmed, is stored under a fresh id. */
  method CreateNote(store: NoteStore, content: string, now: Timestamp) returns (r: Result<Note, NoteError>)
    requires store.Valid()
    modifies store
    ensures store.Valid()
    ensures IsBlank(content) ==> r == Failure(EmptyContent) && store.notes == old(store.notes) && store.nextId == old(store.nextId)
    ensures !IsBlank(content) ==>
      && r == Success(Note(old(store.nextId), content, now, now))
      && store.notes == old(store.notes) + [r.value]
      && store.nextId == old(store.nextId) + 1
  {
    if IsBlank(content) {
      return Failure(EmptyContent);
    }
    var note := store.Create(content, now);
    r := Success(note);
  }

  /** `updateNote`: the blank check comes first, then the existence check; only non-blank content
      for a stored id changes anything. */
  method UpdateNote(store: NoteStore, id: int, content: string, now: Timestamp) returns (r: Result<Note, NoteError>)
    requires store.Valid()
    modifies store
    ensures store.Valid() && store.nextId == old(store.nextId)
    ensures IsBlank(content) ==> r == Failure(EmptyContent) && store.notes == old(store.notes)
    ensures !IsBlank(content) && Position(old(store.notes), id) == -1 ==>
      r == Failure(NoteNotFound) && store.notes == old(store.notes)
    ensures !IsBlank(content) && Position(old(store.notes), id) != -1 ==>
      var k := Position(old(store.notes), id);
      && r == Success(old(store.notes)[k].(content := content, updatedAt := now))
      && store.notes == old(store.notes)[k := r.value]
  {
    if IsBlank(content) {
      return Failure(EmptyContent);
    }
    var updated := store.Update(id, content, now);
    if updated.None? {
      return Failure(NoteNotFound);
    }
    r := Success(updated.value);
  }

  /** `deleteNote`: true when a note was removed, the not-found error otherwise. */
  method DeleteNote(store: NoteStore, id: int) returns (r: Result<bool, NoteError>)
    requires store.Valid()
    modifies store
    ensures store.Valid() && store.nextId == old(store.nextId)
    ensures var k := Position(old(store.notes), id);
      if k == -1 then r == Failure(NoteNotFound) && store.notes == old(store.notes)
      else r == Success(true) && store.notes == old(store.notes)[..k] + old(store.notes)[k + 1..]
  {
    var deleted := store.Delete(id);
    if !deleted {
      return Failure(NoteNotFound);
    }
    r := Success(true);
  }

  /** `getNoteCount`: the number of stored notes. */
  method GetNoteCount(store: NoteStore) returns (n: nat)
    requires store.Valid()
    ensures n == |store.notes|
  {
    n := store.Count();
  }
}
