/**
 * noteController.js: the Notes table. A note belongs to a novel; unlike the
 * other tables it needs no title. The `if (err)` branches of the database
 * callbacks are not modelled.
 */
module NoteController {
  import opened Js
  import opened Tables

  /** A row of Notes. Title and content may both be NULL. */
  datatype Note = Note(novelID: int, title: Option<string>, content: Option<string>)

  /** The owner column `NovelID`. */
  function NovelOf(n: Note): int
  {
    n.novelID
  }

  const Required := "NovelID is required"
  const NotFound := "Note not found"
  const Updated := "Note updated successfully"
  const Deleted := "Note deleted successfully"

  /** The record `createNote` echoes: the stored row, with a missing title or content read as `''`. */
  function Echo(n: Note): (r: Note)
    ensures r.title.Some? && r.content.Some?
    ensures Given(n.title) ==> r.title == n.title
    ensures !Given(n.title) ==> r.title == Some("")
    ensures Given(n.content) ==> r.content == n.content
    ensures !Given(n.content) ==> r.content == Some("")
    ensures r.novelID == n.novelID
  {
    n.(title := Some(OrElse(n.title, "")), content := Some(OrElse(n.content, "")))
  }

  /** The body of `PUT /notes/:NoteID`. */
  datatype NoteChanges = NoteChanges(title: Option<string>, content: Option<string>)

  /** Title and Content are each replaced exactly when the new value is truthy. */
  function Merge(n: Note, u: NoteChanges): (r: Note)
    ensures r.title == (if Given(u.title) then u.title else n.title)
    ensures r.content == (if Given(u.content) then u.content else n.content)
    ensures r.novelID == n.novelID
    ensures Given(n.title) ==> Given(r.title)
    ensures Given(n.content) ==> Given(r.content)
  {
    n.(title := OrElseOpt(u.title, n.title), content := OrElseOpt(u.content, n.content))
  }

  /** Sending the same changes twice is sending them once. */
  lemma MergeIdempotent(n: Note, u: NoteChanges)
    ensures Merge(Merge(n, u), u) == Merge(n, u)
  {
  }

  class NoteTable {
    var rows: map<nat, Note>
    var nextId: nat

    ghost predicate Valid()
      reads this
    {
      forall id :: id in rows ==> id < nextId
    }

    constructor ()
      ensures Valid() && rows == map[]
    {
      rows, nextId := map[], 1;
    }

    /**
     * `createNote`: 400 and no insert only without a novel id; title and
     * content are stored as sent and echoed with `''` for missing ones.
     */
    method CreateNote(novelID: Option<int>, title: Option<string>, content: Option<string>)
      returns (reply: Reply<(nat, Note)>)
      requires Valid()
      modifies this
      ensures Valid()
      ensures novelID.None? ==> reply == Text(400, Required) && rows == old(rows) && nextId == old(nextId)
      ensures novelID.Some? ==>
        var note := Note(novelID.value, title, content);
        old(nextId) !in old(rows)
        && rows == old(rows)[old(nextId) := note]
        && reply == Json(201, (old(nextId), Echo(note)))
    {
      if novelID.None? {
        return Text(400, Required);
      }
      var note := Note(novelID.value, title, content);
      reply := Json(201, (nextId, Echo(note)));
      rows := rows[nextId := note];
      nextId := nextId + 1;
    }

    /** `getNotes`: exactly the notes of the novel. */
    method GetNotes(novelID: int) returns (reply: Reply<map<nat, Note>>)
      ensures reply.Json? && reply.status == 200
      ensures forall id :: id in reply.value <==> id in rows && rows[id].novelID == novelID
      ensures forall id :: id in reply.value ==> reply.value[id] == rows[id]
    {
      reply := Json(200, Owned(rows, NovelOf, novelID));
    }

    /** `getNoteById`: always 200; the body is the row, or empty when there is none. */
    method GetNoteById(noteID: int) returns (reply: Reply<Option<(nat, Note)>>)
      ensures reply.Json? && reply.status == 200
      ensures reply.value.None? <==> noteID < 0 || noteID !in rows
      ensures reply.value.Some? ==> reply.value.value.0 == noteID && reply.value.value.1 == rows[noteID]
    {
      if noteID < 0 || noteID !in rows {
        return Json(200, None);
      }
      reply := Json(200, Some((noteID as nat, rows[noteID])));
    }

    /** `updateNote`: 404 for an absent note; otherwise only that row is merged. */
    method UpdateNote(noteID: int, changes: NoteChanges) returns (reply: Reply<()>)
      requires Valid()
      modifies this
      ensures Valid() && nextId == old(nextId)
      ensures (noteID < 0 || noteID !in old(rows)) ==> reply == Text(404, NotFound) && rows == old(rows)
      ensures noteID >= 0 && noteID in old(rows) ==>
        reply == Text(200, Updated)
        && rows == old(rows)[noteID as nat := Merge(old(rows)[noteID], changes)]
    {
      if noteID < 0 || noteID !in rows {
        return Text(404, NotFound);
      }
      rows := rows[noteID as nat := Merge(rows[noteID], changes)];
      reply := Text(200, Updated);
    }

    /** `deleteNote`: removes that row only; 200 whether or not it existed. */
    method DeleteNote(noteID: int) returns (reply: Reply<()>)
      requires Valid()
      modifies this
      ensures Valid() && nextId == old(nextId)
      ensures reply == Text(200, Deleted)
      ensures noteID < 0 ==> rows == old(rows)
      ensures noteID >= 0 ==> rows == old(rows) - {noteID as nat}
    {
      if noteID >= 0 {
        rows := rows - {noteID as nat};
      }
      reply := Text(200, Deleted);
    }
  }
}
