/**
 * The prompt handlers of promptController.js over the Prompts table. The
 * upstream language-model call is an oracle handed to each handler (its
 * reply, or the fragments it streams), as are the clock (`datetime('now')`)
 * and the row that `ORDER BY RANDOM()` happens to pick. Each handler runs
 * its database steps one after the other.
 */
module PromptController {
  import opened Js
  import opened Text
  import opened PromptText

  /** A row of the Prompts table. */
  datatype PromptRow = PromptRow(id: nat, genre: string, text: string, createdAt: int)

  /** What the non-streaming upstream call produced: the reply text, or a thrown error. */
  datatype Upstream =
    | Completion(content: string)
    | Failure(status: Option<int>, message: string)

  /**
   * What the streaming upstream call produced: the `delta.content` of each
   * chunk received (absent in some chunks), and the error, if one was thrown
   * after those chunks.
   */
  datatype StreamUpstream = StreamUpstream(fragments: seq<Option<string>>, failure: Option<string>)

  /** The parameters sent upstream that the handlers decide (the temperature and the random tag are left out). */
  datatype CompletionRequest = CompletionRequest(
    model: string, system: string, genre: string, count: Option<Value>, maxTokens: nat, stream: bool)

  /** The JSON bodies the handlers send. */
  datatype Body =
    | Error(error: string, detail: Option<string>)
    | Generated(genre: string, prompt: string, model: string)
    | Fallback(genre: string, prompt: string, message: string)
    | FallbackFailed(message: string)
    | Batch(genre: string, prompts: seq<string>, count: nat, model: string)
    | Row(row: PromptRow)
    | Listing(listed: seq<PromptRow>, count: nat)

  /** One server-sent event of the streaming handler. */
  datatype Event = Content(content: string) | Done | ErrorEvent(message: string)

  /** The streaming handler either answers with an ordinary JSON error or streams events. */
  datatype StreamReply = Rejected(status: int, body: Body) | Events(events: seq<Event>)

  const GenreRequired := "Genre is required"
  const KeyMissing := "NVIDIA API key not configured"
  const KeySetup := "Add NVIDIA_API_KEY to your .env file"
  const FallbackNote := "Using cached prompt due to API unavailability"
  const DefaultCount := 3

  function SingleRequest(genre: string): (r: CompletionRequest)
    ensures r.model == Model && r.system == SystemInstruction(genre) && r.genre == genre
    ensures r.maxTokens == 200 && !r.stream && r.count.None?
  {
    CompletionRequest(Model, SystemInstruction(genre), genre, None, 200, false)
  }

  function StreamRequest(genre: string): (r: CompletionRequest)
    ensures r.model == Model && r.system == SystemInstruction(genre) && r.genre == genre
    ensures r.maxTokens == 200 && r.stream && r.count.None?
  {
    CompletionRequest(Model, SystemInstruction(genre), genre, None, 200, true)
  }

  /** The requested count defaults to 3 only when the body has no `count` at all. */
  function BatchRequest(genre: string, count: Option<Value>): (r: CompletionRequest)
    ensures r.model == Model && r.system == SystemInstruction(genre) && r.genre == genre
    ensures r.maxTokens == 500 && !r.stream
    ensures count.None? ==> r.count == Some(Num(DefaultCount))
    ensures count.Some? ==> r.count == count
  {
    var n := if count.Some? then count.value else Num(DefaultCount);
    CompletionRequest(Model, SystemInstruction(genre), genre, Some(n), 500, false)
  }

  // ----- The table as a sequence of rows -----

  /** Some row holds this prompt text for this genre. */
  predicate Stored(rows: seq<PromptRow>, genre: string, text: string)
  {
    exists i :: 0 <= i < |rows| && rows[i].genre == genre && rows[i].text == text
  }

  /** No (genre, text) pair occurs twice. */
  predicate DistinctPrompts(rows: seq<PromptRow>)
  {
    forall i, j :: 0 <= i < j < |rows| ==> !(rows[i].genre == rows[j].genre && rows[i].text == rows[j].text)
  }

  /** `SELECT COUNT(*) FROM Prompts WHERE Genre = ? AND PromptText = ?`. */
  function CountOf(rows: seq<PromptRow>, genre: string, text: string): nat
  {
    if rows == [] then 0
    else
      var last := rows[|rows| - 1];
      CountOf(rows[..|rows| - 1], genre, text) + (if last.genre == genre && last.text == text then 1 else 0)
  }

  /** The count is zero exactly when no row holds the pair. */
  lemma {:induction false} CountZeroIff(rows: seq<PromptRow>, genre: string, text: string)
    ensures CountOf(rows, genre, text) == 0 <==> !Stored(rows, genre, text)
  {
    if rows != [] {
      var init := rows[..|rows| - 1];
      CountZeroIff(init, genre, text);
      if Stored(init, genre, text) {
        var i :| 0 <= i < |init| && init[i].genre == genre && init[i].text == text;
        assert rows[i] == init[i];
      }
      if Stored(rows, genre, text) {
        var i :| 0 <= i < |rows| && rows[i].genre == genre && rows[i].text == text;
        if i < |init| {
          assert init[i] == rows[i];
        }
      }
    }
  }

  /** `SELECT * FROM Prompts WHERE Genre = ?`, in table order. */
  function Matching(rows: seq<PromptRow>, genre: string): (r: seq<PromptRow>)
    ensures |r| <= |rows|
    ensures forall k :: 0 <= k < |r| ==> r[k] in rows && r[k].genre == genre
    ensures forall i :: 0 <= i < |rows| && rows[i].genre == genre ==> rows[i] in r
  {
    if rows == [] then []
    else (if rows[0].genre == genre then [rows[0]] else []) + Matching(rows[1..], genre)
  }

  /** The rows a batch of prompt texts becomes, with consecutive ids from `start`. */
  function NewRows(genre: string, texts: seq<string>, start: nat, now: int): (r: seq<PromptRow>)
    ensures |r| == |texts|
    ensures forall k :: 0 <= k < |texts| ==> r[k] == PromptRow(start + k, genre, texts[k], now)
  {
    seq(|texts|, k requires 0 <= k < |texts| => PromptRow(start + k, genre, texts[k], now))
  }

  function TextsOf(rows: seq<PromptRow>): (r: seq<string>)
    ensures |r| == |rows|
    ensures forall k :: 0 <= k < |rows| ==> r[k] == rows[k].text
  {
    seq(|rows|, k requires 0 <= k < |rows| => rows[k].text)
  }

  /** The new rows carry exactly the given texts, in order, under the given genre. */
  lemma NewRowsCarryTexts(genre: string, texts: seq<string>, start: nat, now: int)
    ensures TextsOf(NewRows(genre, texts, start, now)) == texts
    ensures Matching(NewRows(genre, texts, start, now), genre) == NewRows(genre, texts, start, now)
  {
    var r := NewRows(genre, texts, start, now);
    assert TextsOf(r) == texts;
    MatchingAll(r, genre);
  }

  lemma {:induction false} MatchingAll(rows: seq<PromptRow>, genre: string)
    requires forall k :: 0 <= k < |rows| ==> rows[k].genre == genre
    ensures Matching(rows, genre) == rows
  {
    if rows != [] {
      MatchingAll(rows[1..], genre);
      assert rows == [rows[0]] + rows[1..];
    }
  }

  // ----- Newest first: `ORDER BY CreatedAt DESC` -----

  predicate NewestFirstOrder(rows: seq<PromptRow>)
  {
    forall i, j :: 0 <= i < j < |rows| ==> rows[i].createdAt >= rows[j].createdAt
  }

  function InsertByDate(r: PromptRow, sorted: seq<PromptRow>): seq<PromptRow>
  {
    if sorted == [] || r.createdAt >= sorted[0].createdAt then [r] + sorted
    else [sorted[0]] + InsertByDate(r, sorted[1..])
  }

  /** The rows reordered newest first; rows with the same timestamp keep one fixed order. */
  function NewestFirst(rows: seq<PromptRow>): seq<PromptRow>
  {
    if rows == [] then [] else InsertByDate(rows[0], NewestFirst(rows[1..]))
  }

  /** No row is dated after `t`. */
  predicate DatedBy(rows: seq<PromptRow>, t: int)
  {
    forall k :: 0 <= k < |rows| ==> rows[k].createdAt <= t
  }

  lemma {:induction false} InsertByDateDatedBy(r: PromptRow, sorted: seq<PromptRow>, t: int)
    requires DatedBy(sorted, t) && r.createdAt <= t
    ensures DatedBy(InsertByDate(r, sorted), t)
  {
    if !(sorted == [] || r.createdAt >= sorted[0].createdAt) {
      InsertByDateDatedBy(r, sorted[1..], t);
      var out := InsertByDate(r, sorted);
      forall k | 0 <= k < |out|
        ensures out[k].createdAt <= t
      {
        if k > 0 {
          assert out[k] == InsertByDate(r, sorted[1..])[k - 1];
        }
      }
    }
  }

  /** A row dated no earlier than anything in an ordered list can go in front of it. */
  lemma ConsKeepsOrder(h: PromptRow, rest: seq<PromptRow>)
    requires NewestFirstOrder(rest) && DatedBy(rest, h.createdAt)
    ensures NewestFirstOrder([h] + rest)
  {
    var out := [h] + rest;
    forall i, j | 0 <= i < j < |out|
      ensures out[i].createdAt >= out[j].createdAt
    {
      assert out[j] == rest[j - 1];
      if i > 0 {
        assert out[i] == rest[i - 1];
      }
    }
  }

  /** An ordered list is dated by its first row. */
  lemma OrderedIsDatedByHead(sorted: seq<PromptRow>)
    requires NewestFirstOrder(sorted) && sorted != []
    ensures DatedBy(sorted, sorted[0].createdAt)
    ensures DatedBy(sorted[1..], sorted[0].createdAt)
  {
    forall k | 0 <= k < |sorted[1..]|
      ensures sorted[1..][k].createdAt <= sorted[0].createdAt
    {
      assert sorted[1..][k] == sorted[k + 1];
    }
  }

  lemma {:induction false} InsertByDateKeepsOrder(r: PromptRow, sorted: seq<PromptRow>)
    requires NewestFirstOrder(sorted)
    ensures NewestFirstOrder(InsertByDate(r, sorted))
    ensures multiset(InsertByDate(r, sorted)) == multiset(sorted) + multiset{r}
  {
    if sorted == [] {
      ConsKeepsOrder(r, sorted);
    } else if r.createdAt >= sorted[0].createdAt {
      OrderedIsDatedByHead(sorted);
      ConsKeepsOrder(r, sorted);
    } else {
      var h := sorted[0];
      var tail := sorted[1..];
      assert sorted == [h] + tail;
      assert NewestFirstOrder(tail);
      InsertByDateKeepsOrder(r, tail);
      OrderedIsDatedByHead(sorted);
      InsertByDateDatedBy(r, tail, h.createdAt);
      ConsKeepsOrder(h, InsertByDate(r, tail));
    }
  }

  /** Newest first is a reordering of the rows, and it is ordered by date, newest first. */
  lemma {:induction false} NewestFirstSorts(rows: seq<PromptRow>)
    ensures NewestFirstOrder(NewestFirst(rows))
    ensures multiset(NewestFirst(rows)) == multiset(rows)
    ensures |NewestFirst(rows)| == |rows|
  {
    if rows != [] {
      NewestFirstSorts(rows[1..]);
      InsertByDateKeepsOrder(rows[0], NewestFirst(rows[1..]));
      assert rows == [rows[0]] + rows[1..];
    }
  }

  // ----- Stream accumulation -----

  /** The text of each chunk: its `delta.content`, or `''` when absent. */
  function Texts(fragments: seq<Option<string>>): (r: seq<string>)
    ensures |r| == |fragments|
    ensures forall k :: 0 <= k < |fragments| ==> r[k] == OrElse(fragments[k], "")
  {
    seq(|fragments|, k requires 0 <= k < |fragments| => OrElse(fragments[k], ""))
  }

  function Concat(parts: seq<string>): string
  {
    if parts == [] then "" else Concat(parts[..|parts| - 1]) + parts[|parts| - 1]
  }

  /** The chunk texts that are forwarded: the non-empty ones, in order. */
  function Forwarded(fragments: seq<Option<string>>): (r: seq<string>)
    ensures |r| <= |fragments|
    ensures forall k :: 0 <= k < |r| ==> r[k] != ""
  {
    if fragments == [] then []
    else
      var t := OrElse(fragments[|fragments| - 1], "");
      Forwarded(fragments[..|fragments| - 1]) + (if t != "" then [t] else [])
  }

  function ContentEvents(parts: seq<string>): (r: seq<Event>)
    ensures |r| == |parts|
    ensures forall k :: 0 <= k < |parts| ==> r[k] == Content(parts[k])
  {
    seq(|parts|, k requires 0 <= k < |parts| => Content(parts[k]))
  }

  /** Dropping the empty chunks loses no text: the forwarded pieces add up to the whole reply. */
  lemma {:induction false} ForwardedConcat(fragments: seq<Option<string>>)
    ensures Concat(Forwarded(fragments)) == Concat(Texts(fragments))
  {
    if fragments != [] {
      var init := fragments[..|fragments| - 1];
      var t := OrElse(fragments[|fragments| - 1], "");
      ForwardedConcat(init);
      assert Texts(fragments)[..|fragments| - 1] == Texts(init);
      var f := Forwarded(init);
      if t != "" {
        assert (f + [t])[..|f|] == f;
      } else {
        assert f + [] == f;
      }
    }
  }

  lemma ConcatAppend(parts: seq<string>, t: string)
    ensures Concat(parts + [t]) == Concat(parts) + t
  {
    assert (parts + [t])[..|parts|] == parts;
  }

  /**
   * The `for await` loop: append every non-empty chunk to the full text and
   * forward it as a content event. The client receives exactly the
   * non-empty chunks, and they add up to the whole reply.
   */
  method Accumulate(fragments: seq<Option<string>>) returns (full: string, events: seq<Event>)
    ensures events == ContentEvents(Forwarded(fragments))
    ensures full == Concat(Forwarded(fragments))
    ensures full == Concat(Texts(fragments))
  {
    full := "";
    events := [];
    var i := 0;
    while i < |fragments|
      invariant 0 <= i <= |fragments|
      invariant full == Concat(Forwarded(fragments[..i]))
      invariant events == ContentEvents(Forwarded(fragments[..i]))
    {
      var content := OrElse(fragments[i], "");
      ForwardedStep(fragments, i);
      if content != "" {
        ConcatAppend(Forwarded(fragments[..i]), content);
        ContentEventsAppend(Forwarded(fragments[..i]), content);
        full := full + content;
        events := events + [Content(content)];
      }
      i := i + 1;
    }
    assert fragments[..i] == fragments;
    ForwardedConcat(fragments);
  }

  /** One more chunk forwards its text when that text is non-empty, and nothing otherwise. */
  lemma ForwardedStep(fragments: seq<Option<string>>, i: nat)
    requires i < |fragments|
    ensures OrElse(fragments[i], "") != "" ==>
      Forwarded(fragments[..i + 1]) == Forwarded(fragments[..i]) + [OrElse(fragments[i], "")]
    ensures OrElse(fragments[i], "") == "" ==> Forwarded(fragments[..i + 1]) == Forwarded(fragments[..i])
  {
    assert fragments[..i + 1][..i] == fragments[..i];
    assert Forwarded(fragments[..i]) + [] == Forwarded(fragments[..i]);
  }

  lemma ContentEventsAppend(parts: seq<string>, t: string)
    ensures ContentEvents(parts + [t]) == ContentEvents(parts) + [Content(t)]
  {
  }

  /** The Prompts table. Ids are handed out in increasing order, like AUTOINCREMENT. */
  class PromptStore {
    var rows: seq<PromptRow>
    var nextId: nat

    ghost predicate Valid()
      reads this
    {
      (forall i :: 0 <= i < |rows| ==> rows[i].id < nextId)
      && (forall i, j :: 0 <= i < j < |rows| ==> rows[i].id < rows[j].id)
    }

    constructor()
      ensures Valid() && rows == [] && nextId == 1
    {
      rows := [];
      nextId := 1;
    }

    /** `INSERT INTO Prompts (Genre, PromptText, CreatedAt)`. */
    method Insert(genre: string, text: string, now: int)
      requires Valid()
      modifies this
      ensures Valid()
      ensures rows == old(rows) + [PromptRow(old(nextId), genre, text, now)]
      ensures nextId == old(nextId) + 1
    {
      rows := rows + [PromptRow(nextId, genre, text, now)];
      nextId := nextId + 1;
    }

    /**
     * The check-then-insert of the single-prompt handler: the row is added
     * only when no row holds the same genre and text, so the table never
     * gains a duplicate this way.
     */
    method InsertIfAbsent(genre: string, text: string, now: int)
      requires Valid()
      modifies this
      ensures Valid()
      ensures Stored(old(rows), genre, text) ==> rows == old(rows) && nextId == old(nextId)
      ensures !Stored(old(rows), genre, text) ==>
        rows == old(rows) + [PromptRow(old(nextId), genre, text, now)] && nextId == old(nextId) + 1
      ensures Stored(rows, genre, text)
      ensures DistinctPrompts(old(rows)) ==> DistinctPrompts(rows)
    {
      CountZeroIff(rows, genre, text);
      if CountOf(rows, genre, text) == 0 {
        if DistinctPrompts(rows) {
          SingleHandlerKeepsDistinct(rows, genre, text, nextId, now);
        }
        Insert(genre, text, now);
        assert rows[|rows| - 1].genre == genre && rows[|rows| - 1].text == text;
      }
    }

    /** The `forEach` of the batch handler: one insert per prompt, in order, without a duplicate check. */
    method InsertAll(genre: string, texts: seq<string>, now: int)
      requires Valid()
      modifies this
      ensures Valid()
      ensures rows == old(rows) + NewRows(genre, texts, old(nextId), now)
      ensures nextId == old(nextId) + |texts|
    {
      var i := 0;
      while i < |texts|
        invariant 0 <= i <= |texts|
        invariant Valid()
        invariant rows == old(rows) + NewRows(genre, texts[..i], old(nextId), now)
        invariant nextId == old(nextId) + i
      {
        Insert(genre, texts[i], now);
        assert NewRows(genre, texts[..i + 1], old(nextId), now)
          == NewRows(genre, texts[..i], old(nextId), now) + [PromptRow(old(nextId) + i, genre, texts[i], now)];
        i := i + 1;
      }
      assert texts[..i] == texts;
    }

    /**
     * `generatePrompt`: 400 without a genre and 500 without an API key,
     * both before any upstream call or table access. On an upstream reply,
     * the cleaned text is answered with `generated: true` and stored unless
     * already stored. On an upstream error, 401 and 429 are passed on;
     * any other error falls back to a stored prompt of the genre, or to 500
     * with `fallback_failed` when there is none.
     */
    method GeneratePrompt(genre: Option<string>, hasKey: bool, upstream: Upstream, pick: nat, now: int)
      returns (status: int, body: Body, request: Option<CompletionRequest>)
      requires Valid()
      modifies this
      ensures Valid()
      ensures !Given(genre) ==>
        status == 400 && body == Error(GenreRequired, None) && request.None? && rows == old(rows) && nextId == old(nextId)
      ensures Given(genre) && !hasKey ==>
        status == 500 && body == Error(KeyMissing, Some(KeySetup)) && request.None? && rows == old(rows) && nextId == old(nextId)
      ensures Given(genre) && hasKey ==> request == Some(SingleRequest(genre.value))
      ensures Given(genre) && hasKey && upstream.Completion? ==>
        var text := CleanSingle(upstream.content);
        status == 200 && body == Generated(genre.value, text, Model)
        && (Stored(old(rows), genre.value, text) ==> rows == old(rows) && nextId == old(nextId))
        && (!Stored(old(rows), genre.value, text) ==>
              rows == old(rows) + [PromptRow(old(nextId), genre.value, text, now)] && nextId == old(nextId) + 1)
      ensures Given(genre) && hasKey && upstream.Failure? ==> rows == old(rows) && nextId == old(nextId)
      ensures Given(genre) && hasKey && upstream.Failure? && upstream.status == Some(401) ==>
        status == 401 && body == Error("Invalid API key", Some("Please check your NVIDIA API key"))
      ensures Given(genre) && hasKey && upstream.Failure? && upstream.status == Some(429) ==>
        status == 429 && body == Error("Rate limit exceeded", Some("Please try again later"))
      ensures Given(genre) && hasKey && upstream.Failure? && upstream.status != Some(401) && upstream.status != Some(429) ==>
        var candidates := Matching(old(rows), genre.value);
        (candidates == [] ==> status == 500 && body == FallbackFailed(upstream.message))
        && (candidates != [] ==>
              status == 200 && body == Fallback(genre.value, candidates[pick % |candidates|].text, FallbackNote))
    {
      if !Given(genre) {
        return 400, Error(GenreRequired, None), None;
      }
      if !hasKey {
        return 500, Error(KeyMissing, Some(KeySetup)), None;
      }
      var g := genre.value;
      request := Some(SingleRequest(g));
      match upstream
      case Completion(content) =>
        var text := CleanSingle(content);
        InsertIfAbsent(g, text, now);
        status, body := 200, Generated(g, text, Model);
      case Failure(code, message) =>
        if code == Some(401) {
          status, body := 401, Error("Invalid API key", Some("Please check your NVIDIA API key"));
        } else if code == Some(429) {
          status, body := 429, Error("Rate limit exceeded", Some("Please try again later"));
        } else {
          var candidates := Matching(rows, g);
          if candidates == [] {
            status, body := 500, FallbackFailed(message);
          } else {
            status, body := 200, Fallback(g, candidates[pick % |candidates|].text, FallbackNote);
          }
        }
    }

    /**
     * `generatePromptStream`: the same 400 and 500 answers; otherwise every
     * non-empty chunk is forwarded in order, then one `done` event, and the
     * cleaned concatenation is stored with no duplicate check. An error
     * thrown upstream ends the stream with one error event and stores
     * nothing; there is no fallback.
     */
    method GeneratePromptStream(genre: Option<string>, hasKey: bool, upstream: StreamUpstream, now: int)
      returns (reply: StreamReply, request: Option<CompletionRequest>)
      requires Valid()
      modifies this
      ensures Valid()
      ensures !Given(genre) ==>
        reply == Rejected(400, Error(GenreRequired, None)) && request.None? && rows == old(rows) && nextId == old(nextId)
      ensures Given(genre) && !hasKey ==>
        reply == Rejected(500, Error(KeyMissing, None)) && request.None? && rows == old(rows) && nextId == old(nextId)
      ensures Given(genre) && hasKey ==> request == Some(StreamRequest(genre.value))
      ensures Given(genre) && hasKey && upstream.failure.None? ==>
        reply == Events(ContentEvents(Forwarded(upstream.fragments)) + [Done])
        && rows == old(rows) + [PromptRow(old(nextId), genre.value, CleanStreamed(Concat(Texts(upstream.fragments))), now)]
        && nextId == old(nextId) + 1
      ensures Given(genre) && hasKey && upstream.failure.Some? ==>
        reply == Events(ContentEvents(Forwarded(upstream.fragments)) + [ErrorEvent(upstream.failure.value)])
        && rows == old(rows) && nextId == old(nextId)
    {
      if !Given(genre) {
        return Rejected(400, Error(GenreRequired, None)), None;
      }
      if !hasKey {
        return Rejected(500, Error(KeyMissing, None)), None;
      }
      request := Some(StreamRequest(genre.value));
      var full, events := Accumulate(upstream.fragments);
      if upstream.failure.Some? {
        reply := Events(events + [ErrorEvent(upstream.failure.value)]);
      } else {
        reply := Events(events + [Done]);
        Insert(genre.value, CleanStreamed(full), now);
      }
    }

    /**
     * `generateMultiplePrompts`: the same 400 and 500 answers; otherwise the
     * reply is cut into prompts, every prompt is stored in order with no
     * duplicate check, and `count` is the number of prompts obtained, not
     * the number requested. Any upstream error gives 500.
     */
    method GenerateMultiplePrompts(genre: Option<string>, count: Option<Value>, hasKey: bool, upstream: Upstream, now: int)
      returns (status: int, body: Body, request: Option<CompletionRequest>)
      requires Valid()
      modifies this
      ensures Valid()
      ensures !Given(genre) ==>
        status == 400 && body == Error(GenreRequired, None) && request.None? && rows == old(rows) && nextId == old(nextId)
      ensures Given(genre) && !hasKey ==>
        status == 500 && body == Error(KeyMissing, None) && request.None? && rows == old(rows) && nextId == old(nextId)
      ensures Given(genre) && hasKey ==> request == Some(BatchRequest(genre.value, count))
      ensures Given(genre) && hasKey && upstream.Completion? ==>
        var prompts := BatchPrompts(upstream.content);
        status == 200 && body == Batch(genre.value, prompts, |prompts|, Model)
        && rows == old(rows) + NewRows(genre.value, prompts, old(nextId), now)
        && nextId == old(nextId) + |prompts|
      ensures Given(genre) && hasKey && upstream.Failure? ==>
        status == 500 && body == Error("Failed to generate prompts", Some(upstream.message)) && rows == old(rows) && nextId == old(nextId)
    {
      if !Given(genre) {
        return 400, Error(GenreRequired, None), None;
      }
      if !hasKey {
        return 500, Error(KeyMissing, None), None;
      }
      request := Some(BatchRequest(genre.value, count));
      match upstream
      case Completion(content) =>
        var prompts := BatchPrompts(content);
        InsertAll(genre.value, prompts, now);
        status, body := 200, Batch(genre.value, prompts, |prompts|, Model);
      case Failure(_, message) =>
        status, body := 500, Error("Failed to generate prompts", Some(message));
    }

    /**
     * `getRandomPrompt`: 404 when no row has exactly this genre, otherwise
     * one of those rows (the one `pick` designates).
     */
    method GetRandomPrompt(genre: string, pick: nat) returns (status: int, body: Body)
      ensures Matching(rows, genre) == [] ==>
        status == 404 && body == Error("No prompts found for this genre", Some("Try generating a new prompt first"))
      ensures Matching(rows, genre) != [] ==> status == 200 && body.Row?
      ensures body.Row? ==> body.row in rows && body.row.genre == genre
    {
      var candidates := Matching(rows, genre);
      if candidates == [] {
        status, body := 404, Error("No prompts found for this genre", Some("Try generating a new prompt first"));
      } else {
        status, body := 200, Row(candidates[pick % |candidates|]);
      }
    }

    /**
     * `getAllPrompts`: every row, or only the rows of the genre when one is
     * given, newest first, with `count` the number of rows returned.
     */
    method GetAllPrompts(genre: Option<string>) returns (status: int, body: Body)
      ensures status == 200 && body.Listing? && body.count == |body.listed|
      ensures NewestFirstOrder(body.listed)
      ensures Given(genre) ==> multiset(body.listed) == multiset(Matching(rows, genre.value))
      ensures !Given(genre) ==> multiset(body.listed) == multiset(rows)
      ensures forall k :: 0 <= k < |body.listed| ==> body.listed[k] in rows
      ensures Given(genre) ==> forall k :: 0 <= k < |body.listed| ==> body.listed[k].genre == genre.value
    {
      var selected := if Given(genre) then Matching(rows, genre.value) else rows;
      var sorted := NewestFirst(selected);
      NewestFirstSorts(selected);
      forall k | 0 <= k < |sorted|
        ensures sorted[k] in selected
      {
        assert sorted[k] in multiset(sorted);
      }
      status, body := 200, Listing(sorted, |sorted|);
    }
  }

  /** A store filled only by the single-prompt handler never holds the same prompt twice for a genre. */
  lemma SingleHandlerKeepsDistinct(rows: seq<PromptRow>, genre: string, text: string, id: nat, now: int)
    requires DistinctPrompts(rows)
    requires !Stored(rows, genre, text)
    ensures DistinctPrompts(rows + [PromptRow(id, genre, text, now)])
  {
    var out := rows + [PromptRow(id, genre, text, now)];
    assert forall i :: 0 <= i < |rows| ==> out[i] == rows[i];
  }

  /** The streaming handler stores its text even when an identical row exists. */
  lemma StreamMayDuplicate(rows: seq<PromptRow>, genre: string, text: string, id: nat, now: int)
    requires Stored(rows, genre, text)
    ensures !DistinctPrompts(rows + [PromptRow(id, genre, text, now)])
  {
    var i :| 0 <= i < |rows| && rows[i].genre == genre && rows[i].text == text;
    var out := rows + [PromptRow(id, genre, text, now)];
    assert out[i] == rows[i] && out[|rows|].genre == genre && out[|rows|].text == text;
  }
}
