/** The in-memory note store: one process-wide list of notes and the next id to hand out. */
module NoteRepository {
  import opened Wrappers
  import Tables

  /** An ISO timestamp from the clock, passed in by the caller. */
  type Timestamp = int

  datatype Note = Note(id: int, content: string, createdAt: Timestamp, updatedAt: Timestamp)

  const WelcomeContent: string := "Welcome to Elysia Notes!"

  function HasId(id: int): Note -> bool
  {
    (n: Note) => n.id == id
  }

  /** Position of the note with this id: `notes.findIndex(note => note.id === id)`. */
  function Position(notes: seq<Note>, id: int): (k: int)
    ensures -1 <= k < |notes|
    ensures k == -1 <==> forall i :: 0 <= i < |notes| ==> notes[i].id != id
    ensures k != -1 ==> notes[k].id == id && forall i :: 0 <= i < k ==> notes[i].id != id
  {
    Tables.IndexWhere(notes, HasId(id))
  }

  /** No two stored notes share an id. */
  ghost predicate DistinctIds(notes: seq<Note>)
  {
    forall i, j :: 0 <= i < j < |notes| ==> notes[i].id != notes[j].id
  }

  /** The linear scan behind `findIndex`, returning the first position whose note has the id. */
  method FindIndex(notes: seq<Note>, id: int) returns (k: int)
    ensures k == Position(notes, id)
  {
    k := 0;
    while k < |notes|
      invariant 0 <= k <= |notes|
      invariant forall i :: 0 <= i < k ==> notes[i].id != id
    {
      if notes[k].id == id {
        assert Tables.IndexWhere(notes, HasId(id)) == k by {
          var r := Tables.IndexWhere(notes, HasId(id));
          assert r != -1 ==> !(r < k) && !(k < r);
        }
        return;
      }
      k := k + 1;
    }
    k := -1;
  }

  /** With distinct ids, the note found at a position is the only note carrying its id. */
  lemma PositionOfStored(notes: seq<Note>, k: int)
    requires DistinctIds(notes) && 0 <= k < |notes|
    ensures Position(notes, notes[k].id) == k
  {
  }

  /** Removing a note from a list with distinct ids leaves no note with that id. */
  lemma {:induction false} RemovedIdAbsent(notes: seq<Note>, k: int)
    requires DistinctIds(notes) && 0 <= k < |notes|
    ensures Position(notes[..k] + notes[k + 1..], notes[k].id) == -1
    ensures DistinctIds(notes[..k] + notes[k + 1..])
  {
    var rest := notes[..k] + notes[k + 1..];
    forall i | 0 <= i < |rest| ensures rest[i].id != notes[k].id {
      if i < k { assert rest[i] == notes[i]; } else { assert rest[i] == notes[i + 1]; }
    }
    forall i, j | 0 <= i < j < |rest| ensures rest[i].id != rest[j].id {
      var i' := if i < k then i else i + 1;
      var j' := if j < k then j else j + 1;
      assert rest[i] == notes[i'] && rest[j] == notes[j'];
    }
  }

  /** The store behind the static `NoteRepository` class; its one instance stands for the static state. */
  class NoteStore {
    var notes: seq<Note>
    var nextId: int

    /** Ids are positive, distinct and below `nextId`, so `nextId` is always fresh. */
    ghost predicate Valid()
      reads this
    {
      && nextId >= 1
      && (forall i :: 0 <= i < |notes| ==> 1 <= notes[i].id < nextId)
      && DistinctIds(notes)
    }

    /** The initial state: the welcome note with id 1, and 2 as the next id. */
    constructor (now: Timestamp)
      ensures Valid()
      ensures notes == [Note(1, WelcomeContent, now, now)] && nextId == 2
    {
      notes := [Note(1, WelcomeContent, now, now)];
      nextId := 2;
    }

    /** `findById`: the note carrying the id, if any. */
    method FindById(id: int) returns (r: Option<Note>)
      requires Valid()
      ensures r.None? <==> forall i :: 0 <= i < |notes| ==> notes[i].id != id
      ensures r.Some? ==> r.value in notes && r.value.id == id
    {
      var k := FindIndex(notes, id);
      if k == -1 {
        r := None;
      } else {
        r := Some(notes[k]);
      }
    }

    /** `create`: append a note carrying the current `nextId`, then advance it. */
    method Create(content: string, now: Timestamp) returns (note: Note)
      requires Valid()
      modifies this
      ensures Valid()
      ensures note == Note(old(nextId), content, now, now)
      ensures notes == old(notes) + [note] && nextId == old(nextId) + 1
      ensures Position(notes, note.id) == |old(notes)|
    {
      note := Note(nextId, content, now, now);
      nextId := nextId + 1;
      notes := notes + [note];
      PositionOfStored(notes, |notes| - 1);
    }

    /** `update`: replace the content of the note with this id and refresh its `updatedAt`;
        nothing changes when no note has the id. */
    method Update(id: int, content: string, now: Timestamp) returns (r: Option<Note>)
      requires Valid()
      modifies this
      ensures Valid() && nextId == old(nextId)
      ensures var k := Position(old(notes), id);
        if k == -1 then r.None? && notes == old(notes)
        else r == Some(old(notes)[k].(content := content, updatedAt := now)) && notes == old(notes)[k := r.value]
    {
      var k := FindIndex(notes, id);
      if k == -1 {
        return None;
      }
      var updated := notes[k].(content := content, updatedAt := now);
      notes := notes[k := updated];
      r := Some(updated);
    }

    /** `delete`: remove the note with this id, keeping the others in order. */
    method Delete(id: int) returns (deleted: bool)
      requires Valid()
      modifies this
      ensures Valid() && nextId == old(nextId)
      ensures var k := Position(old(notes), id);
        deleted == (k != -1) &&
        notes == if k == -1 then old(notes) else old(notes)[..k] + old(notes)[k + 1..]
      ensures Position(notes, id) == -1
      ensures |notes| == if deleted then |old(notes)| - 1 else |old(notes)|
    {
      var k := FindIndex(notes, id);
      if k == -1 {
        return false;
      }
      RemovedIdAbsent(notes, k);
      notes := notes[..k] + notes[k + 1..];
      deleted := true;
    }

    /** `count`: the number of stored notes. */
    function Count(): (n: nat)
      reads this
      ensures n == |notes|
    {
      |notes|
    }
  }

  /** Two creates in a row hand out two different ids, and the count grows by two. */
  method CreateTwice(store: NoteStore, a: string, b: string, now: Timestamp) returns (x: Note, y: Note)
    requires store.Valid()
    modifies store
    ensures store.Valid()
    ensures x.id != y.id && store.Count() == old(store.Count()) + 2
  {
    x := store.Create(a, now);
    y := store.Create(b, now);
  }
}
