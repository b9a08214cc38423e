/**
 * chapterController.js: the Chapters table. A chapter belongs to a novel and
 * may carry the writing prompt it answers. The `if (err)` branches of the
 * database callbacks are not modelled.
 */
module ChapterController {
  import opened Js
  import opened Tables

  /** A row of Chapters. Content, prompt text and prompt genre may be NULL. */
  datatype Chapter = Chapter(
    novelID: int,
    title: string,
    content: Option<string>,
    promptText: Option<string>,
    promptGenre: Option<string>)

  /** The owner column `NovelID`. */
  function NovelOf(c: Chapter): int
  {
    c.novelID
  }

  const Required := "NovelID and Title are required"
  const NotFound := "Chapter not found"
  const Updated := "Chapter updated successfully"
  const Deleted := "Chapter deleted successfully"

  /**
   * The row `createChapter` inserts: the content as sent, and a falsy
   * prompt text or genre as NULL.
   */
  function NewChapter(novelID: int, title: string, content: Option<string>,
                      promptText: Option<string>, promptGenre: Option<string>): (r: Chapter)
    ensures r.novelID == novelID && r.title == title && r.content == content
    ensures r.promptText.Some? <==> Given(promptText)
    ensures r.promptGenre.Some? <==> Given(promptGenre)
    ensures r.promptText.Some? ==> r.promptText == promptText && r.promptText.value != ""
    ensures r.promptGenre.Some? ==> r.promptGenre == promptGenre && r.promptGenre.value != ""
  {
    Chapter(novelID, title, content, OrNull(promptText), OrNull(promptGenre))
  }

  /** The record `createChapter` echoes: the stored row, except that missing content reads `''`. */
  function Echo(c: Chapter): (r: Chapter)
    ensures r.content.Some?
    ensures Given(c.content) ==> r.content == c.content
    ensures !Given(c.content) ==> r.content == Some("")
    ensures r.(content := c.content) == c
  {
    c.(content := Some(OrElse(c.content, "")))
  }

  /** The body of `PUT /chapters/:ChapterID`. */
  datatype ChapterChanges = ChapterChanges(title: Option<string>, content: Option<string>)

  /**
   * `title || row.Title`, `content || row.Content`: replaced exactly when the
   * new value is truthy, so sending `''` leaves the old content in place.
   */
  function Merge(c: Chapter, u: ChapterChanges): (r: Chapter)
    ensures r.title == (if Given(u.title) then u.title.value else c.title)
    ensures r.content == (if Given(u.content) then u.content else c.content)
    ensures r.novelID == c.novelID && r.promptText == c.promptText && r.promptGenre == c.promptGenre
    ensures c.title != "" ==> r.title != ""
    ensures Given(c.content) ==> Given(r.content)
  {
    c.(title := OrElse(u.title, c.title), content := OrElseOpt(u.content, c.content))
  }

  /** Sending the same changes twice is sending them once. */
  lemma MergeIdempotent(c: Chapter, u: ChapterChanges)
    ensures Merge(Merge(c, u), u) == Merge(c, u)
  {
  }

  /** Saving empty content over a chapter keeps its text. */
  lemma EmptyContentKeepsOld(c: Chapter)
    ensures Merge(c, ChapterChanges(None, Some(""))) == c
  {
  }

  class ChapterTable {
    var rows: map<nat, Chapter>
    var nextId: nat

    /** Ids are below the next one, and every stored title is non-empty. */
    ghost predicate Valid()
      reads this
    {
      (forall id :: id in rows ==> id < nextId)
      && (forall id :: id in rows ==> rows[id].title != "")
    }

    constructor ()
      ensures Valid() && rows == map[]
    {
      rows, nextId := map[], 1;
    }

    /** `createChapter`: 400 and no insert without a novel id or a truthy title. */
    method CreateChapter(novelID: Option<int>, title: Option<string>, content: Option<string>,
                         promptText: Option<string>, promptGenre: Option<string>)
      returns (reply: Reply<(nat, Chapter)>)
      requires Valid()
      modifies this
      ensures Valid()
      ensures !(novelID.Some? && Given(title)) ==>
        reply == Text(400, Required) && rows == old(rows) && nextId == old(nextId)
      ensures novelID.Some? && Given(title) ==>
        var chapter := NewChapter(novelID.value, title.value, content, promptText, promptGenre);
        old(nextId) !in old(rows)
        && rows == old(rows)[old(nextId) := chapter]
        && reply == Json(201, (old(nextId), Echo(chapter)))
    {
      if novelID.None? || !Given(title) {
        return Text(400, Required);
      }
      var chapter := NewChapter(novelID.value, title.value, content, promptText, promptGenre);
      reply := Json(201, (nextId, Echo(chapter)));
      rows := rows[nextId := chapter];
      nextId := nextId + 1;
    }

    /** `getAllChapters`: exactly the chapters of the novel. */
    method GetAllChapters(novelID: int) returns (reply: Reply<map<nat, Chapter>>)
      ensures reply.Json? && reply.status == 200
      ensures forall id :: id in reply.value <==> id in rows && rows[id].novelID == novelID
      ensures forall id :: id in reply.value ==> reply.value[id] == rows[id]
    {
      reply := Json(200, Owned(rows, NovelOf, novelID));
    }

    /** `getChapterById`: always 200; the body is the row, or empty when there is none. */
    method GetChapterById(chapterID: int) returns (reply: Reply<Option<(nat, Chapter)>>)
      ensures reply.Json? && reply.status == 200
      ensures reply.value.None? <==> chapterID < 0 || chapterID !in rows
      ensures reply.value.Some? ==> reply.value.value.0 == chapterID && reply.value.value.1 == rows[chapterID]
    {
      if chapterID < 0 || chapterID !in rows {
        return Json(200, None);
      }
      reply := Json(200, Some((chapterID as nat, rows[chapterID])));
    }

    /** `updateChapter`: 404 for an absent chapter; otherwise only that row is merged. */
    method UpdateChapter(chapterID: int, changes: ChapterChanges) returns (reply: Reply<()>)
      requires Valid()
      modifies this
      ensures Valid() && nextId == old(nextId)
      ensures (chapterID < 0 || chapterID !in old(rows)) ==> reply == Text(404, NotFound) && rows == old(rows)
      ensures chapterID >= 0 && chapterID in old(rows) ==>
        reply == Text(200, Updated)
        && rows == old(rows)[chapterID as nat := Merge(old(rows)[chapterID], changes)]
    {
      if chapterID < 0 || chapterID !in rows {
        return Text(404, NotFound);
      }
      rows := rows[chapterID as nat := Merge(rows[chapterID], changes)];
      reply := Text(200, Updated);
    }

    /** `deleteChapter`: removes that row only; 200 whether or not it existed. */
    method DeleteChapter(chapterID: int) returns (reply: Reply<()>)
      requires Valid()
      modifies this
      ensures Valid() && nextId == old(nextId)
      ensures reply == Text(200, Deleted)
      ensures chapterID < 0 ==> rows == old(rows)
      ensures chapterID >= 0 ==> rows == old(rows) - {chapterID as nat}
    {
      if chapterID >= 0 {
        rows := rows - {chapterID as nat};
      }
      reply := Text(200, Deleted);
    }
  }

  /** An update keeps a chapter in its novel's list, with the merged record. */
  lemma UpdatedChapterStaysListed(rows: map<nat, Chapter>, id: nat, u: ChapterChanges, n: int)
    requires id in rows && rows[id].novelID == n
    ensures Owned(rows[id := Merge(rows[id], u)], NovelOf, n) == Owned(rows, NovelOf, n)[id := Merge(rows[id], u)]
  {
    OwnedAfterRewrite(rows, NovelOf, id, Merge(rows[id], u), n);
  }
}
