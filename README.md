# WriteWisp core, modelled in Dafny

WriteWisp is a writing app. Its Express backend keeps novels, chapters,
characters, notes, users and writing prompts in SQLite. Its React frontend
keeps lists of those records, validates the sign-up and log-in forms and
routes between pages. This project models the parts of both whose
behaviour can be stated precisely, and proves what they promise:

- **Prompt generator and prompt store** (`PromptText`, `PromptController`).
  - The genre-to-instruction catalogue lookup.
  - The two cleaning pipelines applied to generated text, and the splitter
    that cuts a numbered reply into prompts.
  - The five prompt handlers over a Prompts table, which is a class holding
    a sequence of rows. This covers the outcome decision
    (400 / 500 / 401 / 429 / fallback / `fallback_failed`), the
    check-then-insert deduplication, the stream loop that forwards chunks,
    the batch inserts, and the random-by-genre and newest-first reads.
- **CRUD controllers** (`NovelController`, `ChapterController`,
  `CharacterController`, `NoteController`, `UserController`).
  - Each table is a class with a `map` from row id to record.
  - Each handler is a method that states its reply and the new table.
  - The "new value if truthy, else keep the old one" updates are functions
    with idempotence lemmas.
  - A selection by owner is shared through `Tables`.
- **Middleware** (`Validation`, `ErrorHandler`): the required-field and
  required-parameter checks, and the error-to-status mapping.
- **Frontend utilities** (`Helpers`, `Text`): `truncateText`,
  `getWordCount`, `getCharacterCount`, `isValidEmail` and
  `validatePassword`, over the JavaScript string built-ins they use (`trim`,
  `\s`, `toLowerCase`, `join`).
- **Client list stores** (`UseApi`): the `useApi` loading and error state,
  and the list operations of `useNovels`, `useChapters`, `useCharacters` and
  `useNotes`, as one class parameterised by the id key.
- **Forms and router** (`Forms`, `SignupPage`, `LoginPage`, `AppRouter`):
  - the forms' `validateForm`, `handleChange` and `handleSubmit`;
  - the page router's redirect effect, `navigate`, `renderPage`,
    `ProtectedRoute` and navbar rule.

Everything the code cannot decide itself is a parameter:

- the language model's reply, or the fragments it streams and the error
  it throws;
- the row that `ORDER BY RANDOM()` picks (`pick`);
- the clock (`now`);
- whether `NVIDIA_API_KEY` is set (`hasKey`);
- `bcrypt.hash`;
- the outcome of each awaited API call;
- the authenticated user's id.

JavaScript truthiness is explicit (`Js.Given`, `Js.Truthy`), and SQL NULL
or a missing property is `Js.None`.

The model follows the code; notably:

- `ProtectedRoute` shows a loading spinner while authentication is
  loading, rather than the fallback.
- `getChapterById` and `getNoteById` answer 200 with an empty body for a
  missing row, never 404.
- `getCharacterById` answers a list.
- The streaming handler stores its text without a duplicate check.
- The batch handler's `count` is the number of prompts obtained, not the
  number requested.

## Model

| member | source | states |
|---|---|---|
| PromptText.Lookup | WriteWisp-backend/src/controllers/promptController.js:13-24 | the catalogue answers a genre only for that genre's own lower-case key |
| PromptText.LookupComplete | WriteWisp-backend/src/controllers/promptController.js:13-24 | each of the ten catalogue genres is found under its own key |
| PromptText.LookupIff | WriteWisp-backend/src/controllers/promptController.js:13-24 | the lookup answers a genre exactly for that genre's key, both directions |
| PromptText.KeyIsLowerCase | WriteWisp-backend/src/controllers/promptController.js:42 | every catalogue key is already lower case, so `toLowerCase` leaves it unchanged |
| PromptText.InstructionForCatalogue | WriteWisp-backend/src/controllers/promptController.js:42-43 | every genre that lower-cases to a catalogue key, and each key itself, gets that genre's catalogue entry |
| PromptText.SystemInstruction | WriteWisp-backend/src/controllers/promptController.js:42-43 | the instruction is the catalogue entry of the lower-cased genre when there is one, and the generic instruction otherwise; no genre is rejected |
| PromptText.InstructionIgnoresCase | WriteWisp-backend/src/controllers/promptController.js:42 | a genre and its lower-cased form get the same instruction |
| PromptText.InstructionForCapitalised | WriteWisp-backend/src/controllers/promptController.js:42-43 | `Fantasy` reaches the fantasy entry |
| PromptText.InstructionForUpperCase | WriteWisp-backend/src/controllers/promptController.js:42-43 | `SCI-FI` reaches the science-fiction entry |
| PromptText.InstructionForUnknown | WriteWisp-backend/src/controllers/promptController.js:42-43 | a genre outside the catalogue (`Western`) gets the generic instruction |
| PromptText.StripQuotesRemovesOnlyEndQuotes | WriteWisp-backend/src/controllers/promptController.js:70 | the quote replacement removes at most one character at each end, and only a quote; the result is a contiguous slice of the input |
| PromptText.StripQuotesOneLayer | WriteWisp-backend/src/controllers/promptController.js:70 | doubled quotes lose only their outer layer; a lone quote disappears |
| PromptText.CleanSingleIsClean | WriteWisp-backend/src/controllers/promptController.js:67-72 | the single-prompt text has no `**` left and neither starts nor ends with whitespace |
| PromptText.CleanSingleQuotesMaySurvive | WriteWisp-backend/src/controllers/promptController.js:67-72 | quotes inside bold markers survive: `**"x"**` cleans to `"x"` |
| PromptText.CleanStreamedMayEndInSpace | WriteWisp-backend/src/controllers/promptController.js:202 | the streamed text has no `**` left, but unlike the single path it may end in whitespace (`a **` gives `a `, where the single path gives `a`) |
| PromptText.CleanBatchItemKeepsBold | WriteWisp-backend/src/controllers/promptController.js:263 | a batch item is trimmed and unquoted, but its `**` stays |
| PromptText.DigitsEnd | WriteWisp-backend/src/controllers/promptController.js:261 | the end of a run of digits: every character before it is a digit and the one at it is not |
| PromptText.SeparatorAt | WriteWisp-backend/src/controllers/promptController.js:261 | a separator match starting at a position ends strictly after it and within the text |
| PromptText.SplitPiecesAreSeparatorFree | WriteWisp-backend/src/controllers/promptController.js:261 | no piece of the split still contains a `digits . whitespace` separator |
| PromptText.SplitWithoutSeparator | WriteWisp-backend/src/controllers/promptController.js:261 | text without a separator splits into one piece, itself |
| PromptText.NonBlank | WriteWisp-backend/src/controllers/promptController.js:262 | the kept pieces are pieces of the input that do not trim to empty, and every piece that does not trim to empty is kept |
| PromptText.NonBlankAppend | WriteWisp-backend/src/controllers/promptController.js:262 | the filter keeps the order of the pieces: it distributes over concatenation |
| PromptText.NonBlankKeepsAll | WriteWisp-backend/src/controllers/promptController.js:262 | pieces that are all non-blank pass the filter unchanged |
| PromptText.CleanEach | WriteWisp-backend/src/controllers/promptController.js:263 | each piece is cleaned in place: same count, same order |
| PromptText.BatchPromptsShape | WriteWisp-backend/src/controllers/promptController.js:258-263 | the batch prompts correspond one for one, in order, to the non-blank pieces of the split of the trimmed reply, each trimmed and then unquoted; every non-blank piece gives a prompt |
| PromptText.SplitRejoins | WriteWisp-backend/src/controllers/promptController.js:261 | the split loses nothing: the pieces with the matched separators put back between them give the text again, and each separator is one whole `digits . whitespace` match |
| PromptText.SeparatorIsWholeMatch | WriteWisp-backend/src/controllers/promptController.js:261 | the text a separator match covers is, on its own, exactly one match |
| PromptText.SplitExample | WriteWisp-backend/src/controllers/promptController.js:261 | `1. A.\n2. B.\n3. C.` splits before each number, with an empty first piece |
| PromptText.NonBlankExample | WriteWisp-backend/src/controllers/promptController.js:262 | the empty piece before the first number is dropped |
| PromptText.CleanItems | WriteWisp-backend/src/controllers/promptController.js:263 | the three pieces trim to `A.`, `B.`, `C.` |
| PromptText.BatchExample | WriteWisp-backend/src/controllers/promptController.js:258-263 | a three-item numbered reply yields exactly those three prompts, in order |
| PromptText.BatchSplitsAtYear | WriteWisp-backend/src/controllers/promptController.js:261 | a year ending a sentence (`1984. `) also splits the reply |
| PromptController.SingleRequest | WriteWisp-backend/src/controllers/promptController.js:41-64 | the single request names the model, the genre's instruction, 200 tokens and no streaming |
| PromptController.StreamRequest | WriteWisp-backend/src/controllers/promptController.js:162-187 | the streaming request names the model, the genre's instruction, 200 tokens and streaming |
| PromptController.BatchRequest | WriteWisp-backend/src/controllers/promptController.js:223-255 | the batch request asks for 500 tokens, and for 3 prompts only when the body has no `count` |
| PromptController.CountZeroIff | WriteWisp-backend/src/controllers/promptController.js:76-85 | the duplicate count is zero exactly when no row holds that genre and text |
| PromptController.Matching | WriteWisp-backend/src/controllers/promptController.js:298-300 | the genre selection holds exactly the rows of that genre, all taken from the table |
| PromptController.NewRows | WriteWisp-backend/src/controllers/promptController.js:266-274 | the batch inserts one row per prompt, with consecutive ids, the genre and the timestamp |
| PromptController.NewRowsCarryTexts | WriteWisp-backend/src/controllers/promptController.js:266-274 | the new rows carry exactly the prompts, in order, and all belong to the genre |
| PromptController.InsertByDateKeepsOrder | WriteWisp-backend/src/controllers/promptController.js:332 | inserting a row into a newest-first list keeps it newest first and adds exactly that row |
| PromptController.NewestFirstSorts | WriteWisp-backend/src/controllers/promptController.js:332 | `ORDER BY CreatedAt DESC` gives a reordering of the rows that is newest first |
| PromptController.Texts | WriteWisp-backend/src/controllers/promptController.js:193 | each chunk's text is its `delta.content`, or `''` when absent |
| PromptController.Forwarded | WriteWisp-backend/src/controllers/promptController.js:194 | only non-empty chunk texts are forwarded, never more than there are chunks |
| PromptController.ContentEvents | WriteWisp-backend/src/controllers/promptController.js:196 | one content event per forwarded text, in order |
| PromptController.ForwardedConcat | WriteWisp-backend/src/controllers/promptController.js:192-198 | dropping the empty chunks loses no text: the forwarded texts add up to the whole reply |
| PromptController.Accumulate | WriteWisp-backend/src/controllers/promptController.js:190-198 | the loop forwards exactly the non-empty chunks in order, and its full text is the concatenation of every chunk |
| PromptController.PromptStore.Insert | WriteWisp-backend/src/controllers/promptController.js:86-88 | an insert appends one row under the next id and keeps the ids increasing |
| PromptController.PromptStore.InsertIfAbsent | WriteWisp-backend/src/controllers/promptController.js:74-97 | the check-then-insert adds the row only when no row holds that genre and text; afterwards the pair is stored and a duplicate-free table stays duplicate-free |
| PromptController.PromptStore.InsertAll | WriteWisp-backend/src/controllers/promptController.js:266-274 | the batch loop appends one row per prompt, in order, with no duplicate check |
| PromptController.PromptStore.GeneratePrompt | WriteWisp-backend/src/controllers/promptController.js:27-147 | 400 without a genre and 500 without a key, both before any call or table access; on a reply, 200 with the cleaned text, stored unless already stored; 401 and 429 passed on without a table read; otherwise a stored prompt of the genre, or 500 `fallback_failed` when there is none; the table and its next id change only by the deduplicated insert |
| PromptController.PromptStore.GeneratePromptStream | WriteWisp-backend/src/controllers/promptController.js:150-220 | the same 400 and 500; otherwise every non-empty chunk in order, then one `done` and an insert of the cleaned concatenation with no duplicate check, advancing the next id by one; a thrown error ends the stream with one error event, stores nothing and has no fallback |
| PromptController.PromptStore.GenerateMultiplePrompts | WriteWisp-backend/src/controllers/promptController.js:223-291 | the same 400 and 500; otherwise the prompts of the reply are all stored in order, the next id advancing by their number, and answered with `count` equal to that number; any upstream error gives 500 and stores nothing |
| PromptController.PromptStore.GetRandomPrompt | WriteWisp-backend/src/controllers/promptController.js:294-317 | 404 when no row has exactly this genre, otherwise 200 with a stored row of the genre |
| PromptController.PromptStore.GetAllPrompts | WriteWisp-backend/src/controllers/promptController.js:320-345 | every row, or exactly the rows of a given genre, newest first, with `count` the number returned |
| PromptController.SingleHandlerKeepsDistinct | WriteWisp-backend/src/controllers/promptController.js:74-97 | inserting a pair that is not stored keeps a table free of duplicate (genre, text) pairs |
| PromptController.StreamMayDuplicate | WriteWisp-backend/src/controllers/promptController.js:205-211 | the streaming insert of a stored pair creates a duplicate |
| NovelController.NewJournal | WriteWisp-backend/src/controllers/novelController.js:21-25 | a new journal is the user's prompt journal titled `<username>'s Writing Prompts`, genre `Mixed`, with the fixed summary |
| NovelController.Merge | WriteWisp-backend/src/controllers/novelController.js:145-152 | each of UserID, Title, Genre and Summary is replaced exactly when the new value is truthy; a title is never cleared |
| NovelController.MergeIdempotent | WriteWisp-backend/src/controllers/novelController.js:145-152 | sending the same update twice is sending it once |
| NovelController.MergeFalsyIsIdentity | WriteWisp-backend/src/controllers/novelController.js:145-152 | an update whose every field is falsy changes nothing |
| NovelController.NovelTable.GetOrCreatePromptJournal | WriteWisp-backend/src/controllers/novelController.js:4-44 | a stored journal of the user is returned without an insert; otherwise exactly one new journal is inserted; either way the user then has a journal |
| NovelController.NovelTable.GetOrCreatePromptJournalTwice | WriteWisp-backend/src/controllers/novelController.js:4-44 | two sequential requests insert at most one row in total |
| NovelController.NovelTable.GetPromptJournal | WriteWisp-backend/src/controllers/novelController.js:92-107 | 400 without a user id; otherwise 200 with the user's journal, created for the username or `Writer` when absent |
| NovelController.NovelTable.CreateNovel | WriteWisp-backend/src/controllers/novelController.js:47-74 | 400 and no insert without a user id or a truthy title; otherwise 201 with the row inserted under a fresh id |
| NovelController.NovelTable.GetNovel | WriteWisp-backend/src/controllers/novelController.js:77-89 | exactly the novels of the user |
| NovelController.NovelTable.GetNovelById | WriteWisp-backend/src/controllers/novelController.js:110-131 | 400 without an id, 404 for an absent one, otherwise the row |
| NovelController.NovelTable.UpdateNovel | WriteWisp-backend/src/controllers/novelController.js:134-167 | 404 and no change for an absent id; otherwise only that row is merged |
| NovelController.NovelTable.DeleteNovel | WriteWisp-backend/src/controllers/novelController.js:170-182 | only that row is removed, and the answer is 200 whether or not it existed |
| NovelController.CreatedNovelIsListed | WriteWisp-backend/src/controllers/novelController.js:56-81 | a created novel appears in its user's list, and no other user's list changes |
| NovelController.DeletedNovelIsUnlisted | WriteWisp-backend/src/controllers/novelController.js:170-182 | after a delete the row is in no list, and the rest of each list stays |
| ChapterController.NewChapter | WriteWisp-backend/src/controllers/chapterController.js:13-16 | the inserted row keeps the content as sent and stores a falsy prompt text or genre as NULL |
| ChapterController.Echo | WriteWisp-backend/src/controllers/chapterController.js:21-29 | the echoed chapter is the stored one, with missing content read as `''` |
| ChapterController.Merge | WriteWisp-backend/src/controllers/chapterController.js:81-82 | Title and Content are replaced exactly when the new value is truthy; prompt fields are untouched |
| ChapterController.MergeIdempotent | WriteWisp-backend/src/controllers/chapterController.js:81-82 | sending the same update twice is sending it once |
| ChapterController.EmptyContentKeepsOld | WriteWisp-backend/src/controllers/chapterController.js:82 | saving empty content keeps the old text |
| ChapterController.ChapterTable.CreateChapter | WriteWisp-backend/src/controllers/chapterController.js:4-32 | 400 and no insert without a novel id or a truthy title; otherwise 201 with the new row echoed |
| ChapterController.ChapterTable.GetAllChapters | WriteWisp-backend/src/controllers/chapterController.js:35-47 | exactly the chapters of the novel |
| ChapterController.ChapterTable.GetChapterById | WriteWisp-backend/src/controllers/chapterController.js:50-62 | always 200: the row, or an empty body when there is none |
| ChapterController.ChapterTable.UpdateChapter | WriteWisp-backend/src/controllers/chapterController.js:65-97 | 404 and no change for an absent chapter; otherwise only that row is merged |
| ChapterController.ChapterTable.DeleteChapter | WriteWisp-backend/src/controllers/chapterController.js:100-112 | only that row is removed; 200 either way |
| ChapterController.UpdatedChapterStaysListed | WriteWisp-backend/src/controllers/chapterController.js:77-86 | an updated chapter stays in its novel's list, with the merged record |
| CharacterController.Echo | WriteWisp-backend/src/controllers/characterController.js:21-28 | the echoed character is the stored one, with missing description or role read as `''` |
| CharacterController.Merge | WriteWisp-backend/src/controllers/characterController.js:80-82 | Name, Description and Role are replaced exactly when the new value is truthy; a name is never cleared |
| CharacterController.MergeIdempotent | WriteWisp-backend/src/controllers/characterController.js:80-82 | sending the same update twice is sending it once |
| CharacterController.CharacterTable.CreateCharacter | WriteWisp-backend/src/controllers/characterController.js:3-31 | 400 and no insert without a novel id or a truthy name; otherwise 201 with the new row echoed |
| CharacterController.CharacterTable.GetCharacters | WriteWisp-backend/src/controllers/characterController.js:34-46 | exactly the characters of the novel |
| CharacterController.CharacterTable.GetCharacterById | WriteWisp-backend/src/controllers/characterController.js:49-61 | always 200 with a list: empty, or just that character |
| CharacterController.CharacterTable.UpdateCharacter | WriteWisp-backend/src/controllers/characterController.js:64-96 | 404 and no change for an absent character; otherwise only that row is merged |
| CharacterController.CharacterTable.DeleteCharacter | WriteWisp-backend/src/controllers/characterController.js:99-111 | only that row is removed; 200 either way |
| NoteController.Echo | WriteWisp-backend/src/controllers/noteController.js:23-28 | the echoed note is the stored one, with missing title or content read as `''` |
| NoteController.Merge | WriteWisp-backend/src/controllers/noteController.js:77-78 | Title and Content are replaced exactly when the new value is truthy |
| NoteController.MergeIdempotent | WriteWisp-backend/src/controllers/noteController.js:77-78 | sending the same update twice is sending it once |
| NoteController.NoteTable.CreateNote | WriteWisp-backend/src/controllers/noteController.js:5-31 | 400 and no insert only without a novel id; a note needs no title |
| NoteController.NoteTable.GetNotes | WriteWisp-backend/src/controllers/noteController.js:34-45 | exactly the notes of the novel |
| NoteController.NoteTable.GetNoteById | WriteWisp-backend/src/controllers/noteController.js:48-59 | always 200: the row, or an empty body when there is none |
| NoteController.NoteTable.UpdateNote | WriteWisp-backend/src/controllers/noteController.js:62-93 | 404 and no change for an absent note; otherwise only that row is merged |
| NoteController.NoteTable.DeleteNote | WriteWisp-backend/src/controllers/noteController.js:96-107 | only that row is removed; 200 either way |
| UserController.Public | WriteWisp-backend/src/controllers/userController.js:7-25 | a user is exposed as id, username and email only |
| UserController.PublicIgnoresPassword | WriteWisp-backend/src/controllers/userController.js:7-25 | two rows that differ only in the password read the same |
| UserController.Apply | WriteWisp-backend/src/controllers/userController.js:60-66 | the username is replaced only by a truthy one, the password only by the hash of a truthy one; the email never changes |
| UserController.ApplyNothing | WriteWisp-backend/src/controllers/userController.js:60-66 | a request without username and password leaves the row as it is |
| UserController.UserTable.GetUsers | WriteWisp-backend/src/controllers/userController.js:5-14 | every user, without passwords |
| UserController.UserTable.GetUserById | WriteWisp-backend/src/controllers/userController.js:17-36 | 400 without an id, 404 for an absent one, otherwise the row without its password |
| UserController.UserTable.UpdateUser | WriteWisp-backend/src/controllers/userController.js:39-89 | 403 and no change unless the id is the caller's own; 404 for an absent row; otherwise only that row is rewritten |
| UserController.UserTable.DeleteUser | WriteWisp-backend/src/controllers/userController.js:92-113 | 403 and no change unless the id is the caller's own; 404 when no row was removed; otherwise only that row goes |
| Tables.Owned | WriteWisp-backend/src/controllers/novelController.js:81 | the selection by owner holds exactly the rows of that owner, unchanged |
| Tables.ById | WriteWisp-backend/src/controllers/characterController.js:53 | the selection by id is empty or holds exactly that row |
| Tables.OwnedAfterInsert | WriteWisp-backend/src/controllers/chapterController.js:14-39 | an inserted row joins its owner's selection and no other |
| Tables.OwnedAfterDelete | WriteWisp-backend/src/controllers/characterController.js:99-111 | a deleted row leaves every selection, and nothing else does |
| Tables.OwnedAfterRewrite | WriteWisp-backend/src/controllers/noteController.js:77-82 | a rewritten row with the same owner is rewritten in that owner's selection only |
| Validation.Missing | WriteWisp-backend/src/middleware/validation.js:3 | the missing names are the declared names whose value is absent or falsy |
| Validation.MissingAppend | WriteWisp-backend/src/middleware/validation.js:3 | the missing names keep the order in which they were declared |
| Validation.PresentNeverReported | WriteWisp-backend/src/middleware/validation.js:3 | a name with a truthy value is never reported |
| Validation.ValidateRequired | WriteWisp-backend/src/middleware/validation.js:1-13 | exactly one of two outcomes: `next()` when nothing is missing, or 400 with `Missing required fields: ` and the missing names joined by `, ` |
| Validation.AsValues | WriteWisp-backend/src/middleware/validation.js:17 | route parameters are strings |
| Validation.ValidateParams | WriteWisp-backend/src/middleware/validation.js:15-27 | `next()` exactly when every parameter is present and non-empty, otherwise 400 with `Missing required parameters: ` and the list |
| Validation.FalsyValuesAreMissing | WriteWisp-backend/src/middleware/validation.js:3-8 | `''` and `0` are both reported missing |
| ErrorHandler.HandleError | WriteWisp-backend/src/middleware/errorHandler.js:1-13 | the status is 400 exactly for validation errors, which show their own message; database errors give 500 with a fixed text, and every other error 500 `Internal Server Error` |
| ErrorHandler.ServerErrorsHideMessage | WriteWisp-backend/src/middleware/errorHandler.js:8-12 | a server error's response does not depend on the error's message |
| Text.Trim | WriteWisp-frontend/src/utils/helpers.js:19-22 | `trim` cuts only whitespace and leaves no whitespace at either end |
| Text.TrimEmptyIff | WriteWisp-frontend/src/utils/helpers.js:41 | text trims to empty exactly when it is all whitespace |
| Text.TrimIdempotent | WriteWisp-backend/src/controllers/promptController.js:67-72 | trimming twice is trimming once |
| Text.ToLower | WriteWisp-backend/src/controllers/promptController.js:42 | lower-casing keeps the length, leaves no upper-case letter and changes nothing else |
| Text.ToLowerIdempotent | WriteWisp-backend/src/controllers/promptController.js:42 | lower-casing twice is lower-casing once |
| Text.Join | WriteWisp-backend/src/middleware/validation.js:7 | the joined text holds every part and one separator between each two neighbours, so its length is the parts' total plus one separator fewer than parts, and it starts with the first part |
| Text.JoinAppend | WriteWisp-backend/src/middleware/validation.js:7 | joining two non-empty lists is joining each with one separator between them |
| Validation.ReportAppend | WriteWisp-backend/src/middleware/validation.js:3-7 | the reported message is compositional: the missing names of the first declared fields, `, `, then those of the rest |
| Text.RemoveBoldIsClean | WriteWisp-backend/src/controllers/promptController.js:71 | deleting every `**` leaves none, removes only asterisks and keeps the other characters in order |
| Text.RemoveBoldNoop | WriteWisp-backend/src/controllers/promptController.js:71 | text without `**` is left alone |
| Text.RemoveBoldIdempotent | WriteWisp-backend/src/controllers/promptController.js:71 | removing the bold markers twice is removing them once |
| Helpers.TruncateText | WriteWisp-frontend/src/utils/helpers.js:19-22 | a falsy text or one that fits is returned as is |
| Helpers.TruncateShape | WriteWisp-frontend/src/utils/helpers.js:21 | a text that does not fit becomes a trimmed prefix of at most `maxLength` characters followed by `...`, never longer than `maxLength + 3` |
| Helpers.TruncateExample | WriteWisp-frontend/src/utils/helpers.js:21 | `abcd e` cut at 5 gives `abcd...`: the cut prefix is trimmed |
| Helpers.TruncateNotIdempotent | WriteWisp-frontend/src/utils/helpers.js:19-22 | truncating a truncated text can cut it again |
| Helpers.GetWordCount | WriteWisp-frontend/src/utils/helpers.js:39-42 | anything but a string counts no words |
| Helpers.WordCountIsRuns | WriteWisp-frontend/src/utils/helpers.js:41 | the word count of a string is its number of maximal runs of non-whitespace |
| Helpers.WordCountZeroIff | WriteWisp-frontend/src/utils/helpers.js:40-41 | no words exactly when the text is empty or only whitespace |
| Helpers.GetCharacterCount | WriteWisp-frontend/src/utils/helpers.js:45-47 | the length of the text, 0 when there is none |
| Helpers.WordsAtMostCharacters | WriteWisp-frontend/src/utils/helpers.js:39-47 | a text never has more words than characters |
| Helpers.EmailShapeIff | WriteWisp-frontend/src/utils/helpers.js:50-53 | an address matches exactly when it has no whitespace, exactly one `@` with something before it, and a `.` in the domain that is neither its first nor its last character |
| Helpers.EmailExamples | WriteWisp-frontend/src/utils/helpers.js:51 | `a@b.c` is accepted; `a@b`, `a@@b.c` and `a b@c.d` are not |
| Helpers.Failing | WriteWisp-frontend/src/utils/helpers.js:64-78 | no more rules fail than are checked |
| Helpers.MessageNamesRule | WriteWisp-frontend/src/utils/helpers.js:60-77 | each rule has its own message, distinct from the "required" one |
| Helpers.FailedRules | WriteWisp-frontend/src/utils/helpers.js:64-78 | a rule is reported exactly when the password breaks it, in the order the rules are checked |
| Helpers.NoFailedRuleIffStrong | WriteWisp-frontend/src/utils/helpers.js:64-78 | no rule fails exactly when the password is strong |
| Helpers.PasswordErrorsEmptyIff | WriteWisp-frontend/src/utils/helpers.js:56-81 | no message at all exactly for a present, strong password |
| Helpers.ValidatePassword | WriteWisp-frontend/src/utils/helpers.js:56-81 | only "Password is required" for a missing or empty password; otherwise the message of each failed rule, in order |
| Forms.ClearOnEdit | WriteWisp-frontend/src/pages/SignupPage.jsx:21-23 | editing a field clears that field's truthy error and no other entry |
| Forms.ClearOnEditIdempotent | WriteWisp-frontend/src/pages/LoginPage.jsx:21-23 | editing the same field again changes no error |
| Forms.Put | WriteWisp-frontend/src/pages/SignupPage.jsx:29-51 | a field's error is set only when there is a message |
| Forms.EmailError | WriteWisp-frontend/src/pages/SignupPage.jsx:35-39 | the email has no error exactly when it is valid; empty gives "required", otherwise "valid email" |
| SignupPage.UsernameError | WriteWisp-frontend/src/pages/SignupPage.jsx:29-33 | the username has no error exactly at three characters or more; empty gives "required", otherwise "at least 3" |
| SignupPage.PasswordError | WriteWisp-frontend/src/pages/SignupPage.jsx:42-45 | the password error is the `validatePassword` messages joined by `, `, present exactly for a weak password |
| SignupPage.ConfirmError | WriteWisp-frontend/src/pages/SignupPage.jsx:47-51 | no error exactly when the confirmation is non-empty and repeats the password |
| SignupPage.ValidIff | WriteWisp-frontend/src/pages/SignupPage.jsx:26-55 | the form is valid exactly when the username has three characters or more, the email is valid, the password is strong and the confirmation repeats it |
| SignupPage.ErrorsNameFailingFields | WriteWisp-frontend/src/pages/SignupPage.jsx:26-55 | the error map names exactly the fields whose rule fails |
| SignupPage.PasswordField | WriteWisp-frontend/src/pages/SignupPage.jsx:42-45 | the password step computes the password error from `validatePassword` |
| SignupPage.SignupPage.constructor | WriteWisp-frontend/src/pages/SignupPage.jsx:8-15 | the form starts with four empty fields, no error, not loading |
| SignupPage.SignupPage.HandleChange | WriteWisp-frontend/src/pages/SignupPage.jsx:18-24 | the field takes the value and only that field's error is cleared |
| SignupPage.SignupPage.ValidateForm | WriteWisp-frontend/src/pages/SignupPage.jsx:26-55 | the errors become the fresh ones, and the form is valid when there are none |
| SignupPage.SignupPage.HandleSubmit | WriteWisp-frontend/src/pages/SignupPage.jsx:58-75 | `signup` is called only for a valid form, and only with username, email and password; success goes to the dashboard, failure shows the thrown message |
| LoginPage.PasswordError | WriteWisp-frontend/src/pages/LoginPage.jsx:35-37 | only presence is checked |
| LoginPage.ValidIff | WriteWisp-frontend/src/pages/LoginPage.jsx:26-41 | the form is valid exactly when the email is valid and a password is typed, however weak |
| LoginPage.LoginPage.constructor | WriteWisp-frontend/src/pages/LoginPage.jsx:10-15 | the form starts with two empty fields, no error, not loading |
| LoginPage.LoginPage.HandleChange | WriteWisp-frontend/src/pages/LoginPage.jsx:18-24 | the field takes the value and only that field's error is cleared |
| LoginPage.LoginPage.ValidateForm | WriteWisp-frontend/src/pages/LoginPage.jsx:26-41 | the errors become the fresh ones, and the form is valid when there are none |
| LoginPage.LoginPage.HandleSubmit | WriteWisp-frontend/src/pages/LoginPage.jsx:43-57 | `login` is called only for a valid form, with the whole form; success goes to the dashboard, failure shows the thrown message |
| UseApi.UpdateWhere | WriteWisp-frontend/src/hooks/useApi.js:52-54 | same length and order; records with the id get `{...record, ...updates}`, the others are untouched |
| UseApi.RemoveWhereMembers | WriteWisp-frontend/src/hooks/useApi.js:60 | the filter keeps exactly the records without the id |
| UseApi.FindFirst | WriteWisp-frontend/src/hooks/useApi.js:105-107 | the first record with the id, or nothing when no record has it |
| UseApi.UpdateKeepsUnnamedKeys | WriteWisp-frontend/src/hooks/useApi.js:94-96 | a key the updates do not name keeps its value in every record |
| UseApi.UpdateIdempotent | WriteWisp-frontend/src/hooks/useApi.js:141-143 | updating twice with the same changes is updating once |
| UseApi.LowerCaseKeyDoesNotTouchContent | WriteWisp-frontend/src/hooks/useApi.js:94-96 | keys are merged verbatim: `{content}` does not touch `Content` |
| UseApi.RemoveWhereAppend | WriteWisp-frontend/src/hooks/useApi.js:102 | the filter keeps the relative order of the remaining records |
| UseApi.RemoveWhereNoMatch | WriteWisp-frontend/src/hooks/useApi.js:149 | a list without the id is left as it is |
| UseApi.DeleteAfterCreate | WriteWisp-frontend/src/hooks/useApi.js:175-192 | deleting the id of a record just appended removes it again and nothing else |
| UseApi.DeleteIdempotent | WriteWisp-frontend/src/hooks/useApi.js:189-192 | deleting twice is deleting once |
| UseApi.ListStore.Novels | WriteWisp-frontend/src/hooks/useApi.js:33-35 | the novels list starts empty, keyed by `NovelID` |
| UseApi.ListStore.Chapters | WriteWisp-frontend/src/hooks/useApi.js:76-78 | the chapters list starts empty, keyed by `ChapterID` |
| UseApi.ListStore.Characters | WriteWisp-frontend/src/hooks/useApi.js:123-125 | the characters list starts empty, keyed by `CharacterID` |
| UseApi.ListStore.Notes | WriteWisp-frontend/src/hooks/useApi.js:165-167 | the notes list starts empty, keyed by `NoteID` |
| UseApi.ListStore.BeginRequest | WriteWisp-frontend/src/hooks/useApi.js:11-12 | before the call: loading, no error |
| UseApi.ListStore.EndRequest | WriteWisp-frontend/src/hooks/useApi.js:14-22 | after the call: not loading; a thrown error's message, or the generic one, becomes the error and the error is passed on |
| UseApi.ListStore.Request | WriteWisp-frontend/src/hooks/useApi.js:10-23 | `request` ends not loading, with no error after a success and the message (or `UNKNOWN_ERROR`) after a failure, passing the outcome on |
| UseApi.ListStore.ClearError | WriteWisp-frontend/src/hooks/useApi.js:25-27 | the error is cleared and nothing else changes |
| UseApi.ListStore.Load | WriteWisp-frontend/src/hooks/useApi.js:37-41 | the list becomes the data, or empty for null data; a failed call keeps it; no error after a success, and the thrown message (or the generic one) after a failure |
| UseApi.ListStore.Create | WriteWisp-frontend/src/hooks/useApi.js:43-48 | the returned record is appended and the earlier records stay as they were; no error after a success, and the thrown message (or the generic one) after a failure |
| UseApi.ListStore.Update | WriteWisp-frontend/src/hooks/useApi.js:50-56 | the local updates, not the server's reply, are merged into every record with the id; no error after a success, and the thrown message (or the generic one) after a failure |
| UseApi.ListStore.Delete | WriteWisp-frontend/src/hooks/useApi.js:58-61 | every record with the id is removed; no error after a success, and the thrown message (or the generic one) after a failure |
| UseApi.ListStore.FindById | WriteWisp-frontend/src/hooks/useApi.js:105-107 | the first record of the list with the id, as `find` returns it, or nothing exactly when none has it |
| AppRouter.Redirect | WriteWisp-frontend/src/App.jsx:36-44 | no change while loading; signed in at `home` goes to `dashboard`; signed out on `dashboard` or `editor` goes `home`; nothing else moves |
| AppRouter.RedirectSettles | WriteWisp-frontend/src/App.jsx:36-44 | a second run of the effect changes nothing, so the router never loops |
| AppRouter.RedirectGuards | WriteWisp-frontend/src/App.jsx:38-41 | once settled, a signed-out user is never left on a protected page, nor a signed-in one at `home` |
| AppRouter.ProtectedRoute | WriteWisp-frontend/src/App.jsx:12-27 | a spinner while loading, then the children exactly for a signed-in user and the fallback otherwise |
| AppRouter.RenderPage | WriteWisp-frontend/src/App.jsx:53-84 | each known page has its view, the dashboard and editor behind the guard; an unknown page shows the landing page |
| AppRouter.ProtectedViewsNeedAuthentication | WriteWisp-frontend/src/App.jsx:64-79 | the dashboard and the editor are shown only to a signed-in user once loading is over, and the editor gets the selected novel |
| AppRouter.ShowNavbar | WriteWisp-frontend/src/App.jsx:86 | the navbar is shown exactly on pages other than `editor` |
| AppRouter.Router.constructor | WriteWisp-frontend/src/App.jsx:32-33 | the router starts at `home` with no selected novel |
| AppRouter.Router.Effect | WriteWisp-frontend/src/App.jsx:36-44 | the page becomes its redirect and the selected novel stays |
| AppRouter.Router.Navigate | WriteWisp-frontend/src/App.jsx:46-51 | the page always changes; the selected novel only for truthy data |

## Left out

- The language-model client, the network and the request details the
  handlers do not decide are not modelled: the float `temperature`, the
  random tag and the user message text
  (WriteWisp-backend/src/controllers/promptController.js:5-8, 45-60, 169-180,
  238-249). The reply, the streamed fragments and the thrown error are
  inputs.
- Asynchronous timing is not modelled. The duplicate check, the inserts and
  the response run one after the other. The real handler answers before its
  insert completes, and concurrent requests can interleave a check and an
  insert.
- `ORDER BY RANDOM()` is a `pick` index into the rows of the genre, not a
  uniform choice.
- The `if (err)` branches of every database callback are not modelled.
  These are the 500 answers and the logged insert failures.
- SQLite hands out row ids as max rowid + 1. The model hands them out from a
  counter that never reuses an id.
- SQL row order is not modelled. Selections are maps, or the Prompts table
  in insertion order. The order of rows with equal `CreatedAt` under
  `ORDER BY CreatedAt DESC` is one fixed order, not SQLite's.
- Path parameters are integers or absent. `parseInt` of arbitrary text, and
  SQLite's comparison of a text id with an integer column, are not modelled.
  `createNovel` echoes `UserID` as the path string; the model echoes the
  number.
- `createNovel` does not set `IsPromptJournal`; the model takes the
  column's value to be 0. The table schema is not part of this model.
- `GetOrCreatePromptJournal` returns some journal of the user when there
  are several, as `db.get` returns the first row SQLite finds.
- `UpdateNovel` can move a novel, including a journal, to another user,
  because a truthy `UserID` replaces the old one; the model allows this as
  the code does.
- `bcrypt.hash` is a deterministic function parameter; the real hash is
  salted, and its failure (the `catch` that answers 500) is not modelled.
- UserController.UserTable.UpdateUser: the `this.changes === 0` answer (400
  `No changes were made`) is not modelled. Under sequential execution, a row
  just read always matches the update.
- The prompt routes are defined but not mounted by the router, so the
  prompt handlers are modelled as they would behave if called.
  `routes/*.js`, `app.js` and `config/database.js` are wiring and are not
  part of this model.
- A thrown error without a `message` gives `undefined` in the fallback and
  stream replies. The model gives every upstream error a message.
- A reply whose `message.content` is missing throws inside the `try`. This
  is not distinguished from an upstream error without a status.
- The catalogue is a plain object, so the lookup also finds inherited keys
  such as `constructor`. PromptText.SystemInstruction covers only the ten
  catalogue keys.
- A non-string `genre` in the batch body throws on `toLowerCase` and gives
  500. The model takes the genre as a string.
- `toLowerCase` is modelled for the ASCII letters only. `trim` and `\s` use
  the JavaScript whitespace set. Lengths count characters, not UTF-16 code
  units.
- Helpers.TruncateText: its own contract states only the unchanged cases.
  The shape of a cut text is stated by Helpers.TruncateShape. The default
  `maxLength` of 100 is not modelled; the caller passes it.
- PromptText.InstructionForCatalogue: that each catalogue entry differs
  from the generic instruction is not proved. The entries are long string
  literals, and comparing them is beyond what the verifier does cheaply.
- `authController.js` and `settingController.js` are not part of this
  model. The first wraps bcrypt and JWT; the second is unreachable.
- `services/api.js`, `context/AuthProvider.jsx`, the React views and
  components, and the impure helpers are not part of this model. The impure
  helpers are `debounce`, `storage`, `formatDate` and `generateTempId`.
- NaN is not a modelled JSON value, so its falsiness is not covered.
