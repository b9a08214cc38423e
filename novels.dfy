/**
 * novelController.js: the Novels table and its handlers. A novel belongs to
 * a user; one novel per user may be the "prompt journal" that collects the
 * daily writing prompts, created on first request. The `if (err)` branches
 * of the database callbacks are not modelled.
 */
module NovelController {
  import opened Js
  import opened Tables

  /** A row of Novels. Genre and summary may be NULL. */
  datatype Novel = Novel(
    userID: int,
    title: string,
    genre: Option<string>,
    summary: Option<string>,
    isPromptJournal: bool)

  /** The owner column `UserID`. */
  function UserOf(n: Novel): int
  {
    n.userID
  }

  const Required := "UserID and Title are required"
  const UserRequired := "UserID is required"
  const IdRequired := "NovelID parameter is required"
  const NotFound := "Novel not found"
  const Updated := "Novel updated successfully"
  const Deleted := "Novel deleted successfully"

  const JournalGenre := "Mixed"
  const JournalSummary := "A collection of daily writing prompts and responses"
  const DefaultUsername := "Writer"

  predicate IsJournalOf(n: Novel, userID: int)
  {
    n.userID == userID && n.isPromptJournal
  }

  predicate HasJournal(rows: map<nat, Novel>, userID: int)
  {
    exists id :: id in rows && IsJournalOf(rows[id], userID)
  }

  /** The journal inserted for a user who has none yet. */
  function NewJournal(userID: int, username: string): (r: Novel)
    ensures IsJournalOf(r, userID)
    ensures r.title == username + "'s Writing Prompts" && r.title != ""
    ensures r.genre == Some(JournalGenre) && r.summary == Some(JournalSummary)
  {
    Novel(userID, username + "'s Writing Prompts", Some(JournalGenre), Some(JournalSummary), true)
  }

  /** The body of `PUT /novels/:NovelID`; each field may be missing. */
  datatype NovelChanges = NovelChanges(
    userID: Option<int>,
    title: Option<string>,
    genre: Option<string>,
    summary: Option<string>)

  /**
   * `updatedX = x || row.X` for each column: a field is replaced exactly
   * when the supplied value is truthy, so a stored value can never be
   * cleared to `''` (or a user id to 0), and the journal flag is untouched.
   */
  function Merge(n: Novel, c: NovelChanges): (r: Novel)
    ensures r.userID == (if GivenId(c.userID) then c.userID.value else n.userID)
    ensures r.title == (if Given(c.title) then c.title.value else n.title)
    ensures r.genre == (if Given(c.genre) then c.genre else n.genre)
    ensures r.summary == (if Given(c.summary) then c.summary else n.summary)
    ensures r.isPromptJournal == n.isPromptJournal
    ensures n.title != "" ==> r.title != ""
    ensures Given(n.genre) ==> Given(r.genre)
    ensures Given(n.summary) ==> Given(r.summary)
  {
    n.(userID := OrElseId(c.userID, n.userID),
       title := OrElse(c.title, n.title),
       genre := OrElseOpt(c.genre, n.genre),
       summary := OrElseOpt(c.summary, n.summary))
  }

  /** Sending the same changes twice is sending them once. */
  lemma MergeIdempotent(n: Novel, c: NovelChanges)
    ensures Merge(Merge(n, c), c) == Merge(n, c)
  {
  }

  /** An update whose every field is falsy changes nothing. */
  lemma MergeFalsyIsIdentity(n: Novel, c: NovelChanges)
    requires !GivenId(c.userID) && !Given(c.title) && !Given(c.genre) && !Given(c.summary)
    ensures Merge(n, c) == n
  {
  }

  class NovelTable {
    var rows: map<nat, Novel>
    /** The id SQLite hands out next (`this.lastID` of the next insert). */
    var nextId: nat

    /** Ids are below the next one, and every stored title is non-empty. */
    ghost predicate Valid()
      reads this
    {
      (forall id :: id in rows ==> id < nextId)
      && (forall id :: id in rows ==> rows[id].title != "")
    }

    constructor ()
      ensures Valid() && rows == map[]
    {
      rows, nextId := map[], 1;
    }

    /**
     * `getOrCreatePromptJournal`: a journal of the user is returned as
     * stored, without any insert; only a user without one gets a new
     * journal, so afterwards the user has a journal either way.
     */
    method GetOrCreatePromptJournal(userID: int, username: string) returns (id: nat, journal: Novel)
      requires Valid()
      modifies this
      ensures Valid()
      ensures id in rows && rows[id] == journal && IsJournalOf(journal, userID)
      ensures HasJournal(rows, userID)
      ensures old(HasJournal(rows, userID)) ==> rows == old(rows) && nextId == old(nextId)
      ensures !old(HasJournal(rows, userID)) ==>
        id == old(nextId) && id !in old(rows)
        && journal == NewJournal(userID, username)
        && rows == old(rows)[id := journal]
    {
      if k :| k in rows && IsJournalOf(rows[k], userID) {
        id, journal := k, rows[k];
      } else {
        id, journal := nextId, NewJournal(userID, username);
        rows := rows[id := journal];
        nextId := nextId + 1;
      }
    }

    /** Two sequential requests for the journal: the second inserts nothing. */
    method GetOrCreatePromptJournalTwice(userID: int, username: string)
      returns (first: nat, second: nat)
      requires Valid()
      modifies this
      ensures Valid()
      ensures first in rows && second in rows
      ensures IsJournalOf(rows[first], userID) && IsJournalOf(rows[second], userID)
      ensures old(HasJournal(rows, userID)) ==> rows == old(rows)
      ensures !old(HasJournal(rows, userID)) ==> rows == old(rows)[first := NewJournal(userID, username)]
      ensures !old(HasJournal(rows, userID)) ==> |rows.Keys| == |old(rows).Keys| + 1
    {
      var j1, j2;
      first, j1 := GetOrCreatePromptJournal(userID, username);
      ghost var between := rows;
      second, j2 := GetOrCreatePromptJournal(userID, username);
      assert rows == between;
    }

    /** `getPromptJournal`: 400 without a user id; the username defaults to `Writer`. */
    method GetPromptJournal(userID: Option<int>, username: Option<string>) returns (reply: Reply<(nat, Novel)>)
      requires Valid()
      modifies this
      ensures Valid()
      ensures userID.None? ==> reply == Text(400, UserRequired) && rows == old(rows) && nextId == old(nextId)
      ensures userID.Some? ==>
        reply.Json? && reply.status == 200
        && reply.value.0 in rows && rows[reply.value.0] == reply.value.1
        && IsJournalOf(reply.value.1, userID.value)
      ensures userID.Some? && old(HasJournal(rows, userID.value)) ==> rows == old(rows)
      ensures userID.Some? && !old(HasJournal(rows, userID.value)) ==>
        reply.value.1 == NewJournal(userID.value, OrElse(username, DefaultUsername))
        && rows == old(rows)[old(nextId) := reply.value.1]
    {
      if userID.None? {
        return Text(400, UserRequired);
      }
      var id, journal := GetOrCreatePromptJournal(userID.value, OrElse(username, DefaultUsername));
      reply := Json(200, (id, journal));
    }

    /**
     * `createNovel`: 400 and no insert without a user id or a truthy title;
     * otherwise the row is inserted under a fresh id and echoed back.
     */
    method CreateNovel(userID: Option<int>, title: Option<string>, genre: Option<string>, summary: Option<string>)
      returns (reply: Reply<(nat, Novel)>)
      requires Valid()
      modifies this
      ensures Valid()
      ensures !(userID.Some? && Given(title)) ==>
        reply == Text(400, Required) && rows == old(rows) && nextId == old(nextId)
      ensures userID.Some? && Given(title) ==>
        var novel := Novel(userID.value, title.value, genre, summary, false);
        old(nextId) !in old(rows)
        && reply == Json(201, (old(nextId), novel))
        && rows == old(rows)[old(nextId) := novel]
    {
      if userID.None? || !Given(title) {
        return Text(400, Required);
      }
      var novel := Novel(userID.value, title.value, genre, summary, false);
      reply := Json(201, (nextId, novel));
      rows := rows[nextId := novel];
      nextId := nextId + 1;
    }

    /** `getNovel`: exactly the novels of the user. */
    method GetNovel(userID: int) returns (reply: Reply<map<nat, Novel>>)
      ensures reply.Json? && reply.status == 200
      ensures forall id :: id in reply.value <==> id in rows && rows[id].userID == userID
      ensures forall id :: id in reply.value ==> reply.value[id] == rows[id]
    {
      reply := Json(200, Owned(rows, UserOf, userID));
    }

    /** `getNovelById`: 400 without an id, 404 for an absent one, else the row. */
    method GetNovelById(novelID: Option<int>) returns (reply: Reply<(nat, Novel)>)
      ensures novelID.None? ==> reply == Text(400, IdRequired)
      ensures novelID.Some? && (novelID.value < 0 || novelID.value !in rows) ==> reply == Text(404, NotFound)
      ensures novelID.Some? && novelID.value >= 0 && novelID.value in rows ==>
        reply == Json(200, (novelID.value as nat, rows[novelID.value]))
    {
      if novelID.None? {
        return Text(400, IdRequired);
      }
      if novelID.value < 0 || novelID.value !in rows {
        return Text(404, NotFound);
      }
      reply := Json(200, (novelID.value as nat, rows[novelID.value]));
    }

    /** `updateNovel`: 404 for an absent id; otherwise only that row is merged with the changes. */
    method UpdateNovel(novelID: int, changes: NovelChanges) returns (reply: Reply<()>)
      requires Valid()
      modifies this
      ensures Valid() && nextId == old(nextId)
      ensures (novelID < 0 || novelID !in old(rows)) ==> reply == Text(404, NotFound) && rows == old(rows)
      ensures novelID >= 0 && novelID in old(rows) ==>
        reply == Text(200, Updated)
        && rows == old(rows)[novelID as nat := Merge(old(rows)[novelID], changes)]
    {
      if novelID < 0 || novelID !in rows {
        return Text(404, NotFound);
      }
      rows := rows[novelID as nat := Merge(rows[novelID], changes)];
      reply := Text(200, Updated);
    }

    /** `deleteNovel`: removes that row only, and answers 200 whether or not it existed. */
    method DeleteNovel(novelID: int) returns (reply: Reply<()>)
      requires Valid()
      modifies this
      ensures Valid() && nextId == old(nextId)
      ensures reply == Text(200, Deleted)
      ensures novelID < 0 ==> rows == old(rows)
      ensures novelID >= 0 ==> rows == old(rows) - {novelID as nat}
    {
      if novelID >= 0 {
        rows := rows - {novelID as nat};
      }
      reply := Text(200, Deleted);
    }
  }

  /** A created novel is listed among its user's novels, and no other user's list changes. */
  lemma CreatedNovelIsListed(rows: map<nat, Novel>, id: nat, novel: Novel, u: int)
    requires id !in rows
    ensures novel.userID == u ==> id in Owned(rows[id := novel], UserOf, u)
    ensures novel.userID != u ==> Owned(rows[id := novel], UserOf, u) == Owned(rows, UserOf, u)
  {
    OwnedAfterInsert(rows, UserOf, id, novel, u);
  }

  /** After a delete the row is in no user's list, and the rest of each list stays. */
  lemma DeletedNovelIsUnlisted(rows: map<nat, Novel>, id: nat, u: int)
    ensures Owned(rows - {id}, UserOf, u) == Owned(rows, UserOf, u) - {id}
  {
    OwnedAfterDelete(rows, UserOf, id, u);
  }
}
