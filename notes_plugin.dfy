/** The demonstration `/note` plugin: a list of strings edited in place by position. */
module NotesPlugin {
  import opened Wrappers

  /** Where `Array.prototype.splice(index, 1)` starts on a list of length `len`:
      a negative index counts back from the end, an index past the end clamps to the end. */
  function SpliceStart(index: int, len: nat): (s: nat)
    ensures s <= len
    ensures 0 <= index < len ==> s == index
    ensures 0 - len <= index < 0 ==> s == len + index
    ensures index >= len ==> s == len
    ensures index < 0 - len ==> s == 0
  {
    if index < 0 then (if len + index < 0 then 0 else len + index)
    else if index < len then index else len
  }

  /** `index in data` for an integer index on a dense array. */
  predicate InRange(index: int, data: seq<string>)
  {
    0 <= index < |data|
  }

  class Note {
    var data: seq<string>

    /** `new Note()`: the default contents. */
    constructor ()
      ensures data == ["Moonhalo??"]
    {
      data := ["Moonhalo??"];
    }

    /** `new Note(data)`. */
    constructor WithData(data: seq<string>)
      ensures this.data == data
    {
      this.data := data;
    }

    /** `add`: push at the end and return the whole list. */
    method Add(note: string) returns (r: seq<string>)
      modifies this
      ensures data == old(data) + [note] && |data| == |old(data)| + 1
      ensures r == data
    {
      data := data + [note];
      r := data;
    }

    /** `remove`: `splice(index, 1)`, returning the removed elements (one, or none past the end). */
    method Remove(index: int) returns (removed: seq<string>)
      modifies this
      ensures var s := SpliceStart(index, |old(data)|);
        if s < |old(data)| then
          removed == [old(data)[s]] && data == old(data)[..s] + old(data)[s + 1..]
        else
          removed == [] && data == old(data)
    {
      var s := SpliceStart(index, |data|);
      if s < |data| {
        removed := [data[s]];
        data := data[..s] + data[s + 1..];
      } else {
        removed := [];
      }
    }

    /** `update`: assign position `index` and return the assigned string. */
    method Update(index: int, note: string) returns (r: string)
      requires InRange(index, data)
      modifies this
      ensures data == old(data)[index := note] && r == note
    {
      data := data[index := note];
      r := note;
    }
  }

  /** What a handler answers: a body or an HTTP status. */
  datatype Reply<T> = Body(value: T) | NotFound | UnprocessableContent

  /** GET `/:index`: the element at that position, or Not Found. */
  function GetAt(note: Note, index: int): (r: Reply<string>)
    reads note
    ensures r.Body? <==> InRange(index, note.data)
    ensures r.Body? ==> r.value == note.data[index]
    ensures !r.Body? ==> r == NotFound
  {
    if InRange(index, note.data) then Body(note.data[index]) else NotFound
  }

  /** PATCH `/:index`: update only a valid position, otherwise answer Unprocessable Content
      and leave the list as it was. */
  method PatchAt(note: Note, index: int, value: string) returns (r: Reply<string>)
    modifies note
    ensures InRange(index, old(note.data)) ==> r == Body(value) && note.data == old(note.data)[index := value]
    ensures !InRange(index, old(note.data)) ==> r == UnprocessableContent && note.data == old(note.data)
    ensures |note.data| == |old(note.data)|
  {
    if InRange(index, note.data) {
      var s := note.Update(index, value);
      r := Body(s);
    } else {
      r := UnprocessableContent;
    }
  }

  /** DELETE `/:index`: remove a valid position, answering with the removed element;
      any other index answers nothing and leaves the list as it was. */
  method DeleteAt(note: Note, index: int) returns (r: Option<seq<string>>)
    modifies note
    ensures InRange(index, old(note.data)) ==>
      r == Some([old(note.data)[index]]) && note.data == old(note.data)[..index] + old(note.data)[index + 1..]
    ensures !InRange(index, old(note.data)) ==> r == None && note.data == old(note.data)
  {
    if InRange(index, note.data) {
      var removed := note.Remove(index);
      r := Some(removed);
    } else {
      r := None;
    }
  }
}
