# Elysia notes and novels backend — a Dafny model

This project models the core of a CRUD REST backend for notes, novels and users. The backend
stores novels and users in SQLite through an ORM, and keeps notes in memory. The model covers:

- **The in-memory note stores.** One is the `NoteRepository` static store, with its `nextId`
  counter. The other is the demonstration `/note` plugin, whose `Note` object is a list of strings
  edited in place by position. On top of them sits the note service, with its blank-content and
  not-found rules.
- **The novel and user repositories.** Their `WHERE` clauses, soft delete, `LIMIT`/`OFFSET`
  paging, `ORDER BY` columns and the novel–category and novel–tag junction rows are modelled over
  in-memory tables (`Schema.DbState`). Reads are pure functions of the tables. Writes are methods
  of the repository classes that replace the tables of a shared `Schema.Database` object.
- **The novel and user services.** This covers pagination arithmetic, create defaults and
  duplicate-email rejection. It also covers how category and tag lists replace links on update,
  and the discovery, author and search listings.
- **The response envelope builders** and **the environment validator.** The validator turns the
  raw environment variables into a configuration or a list of issues, following zod 3's rules for
  defaults, coercion and aborting versus non-aborting issues.

Modules, one per source file or shared concern:

- `Wrappers`: Option and Result.
- `Tables`: first match and filter over row sequences.
- `JsText`: ECMAScript whitespace, `trim` and `Number(string)`.
- `Paging`: `Math.ceil(total / limit)` as a JavaScript number.
- `NoteRepository`, `NoteService`, `NotesPlugin`.
- `Schema`: records, enums and the `Database` object.
- `UserRepository`, `UserService`.
- `NovelOrder`: SQLite ordering of the sort columns.
- `NovelRepository`, `NovelService`.
- `Response`, `Env`.

Things that come from outside the code become parameters:

- The clock becomes a `now` parameter.
- Generated UUIDs become an `id` parameter.
- An insert whose id or unique email is already in the table fails with `UniqueConstraintFailed`,
  as SQLite's constraint would, instead of being excluded by a precondition.

## Model

| member | source | states |
|---|---|---|
| `JsText.TrimEmptyIff` | src/features/notes/services/note.service.ts:26 | `content.trim()` is empty exactly when every character of the content is ECMAScript white space or a line terminator |
| `JsText.TrimIsCore` | src/features/notes/services/note.service.ts:26 | `trim` returns a contiguous slice of its input. Everything cut off before and after that slice is white space |
| `JsText.Trim` | src/features/notes/services/note.service.ts:26 | `trim` never lengthens its input. A non-empty result starts and ends with a non-white-space character, and an all-white-space input trims to the empty string |
| `JsText.ToNumber` | src/config/env.ts:15 | `Number` coercion: empty or all-white-space text is 0, and text that reads as a number starts, once trimmed, with a digit or a sign (the values read are stated in `JsText.ToNumberDecimal`) |
| `JsText.ToNumberDecimal` | src/config/env.ts:15 | `Number` coercion reads the decimal rendering of any natural number back as that number |
| `Paging.CeilDiv` | src/features/novels/services/novel.service.ts:66 | `Math.ceil(total / limit)`. A positive limit gives the least n with n·limit ≥ total. A negative limit gives the ceiling of the negative quotient. Limit 0 gives Infinity, -Infinity or NaN by the sign of total |
| `Paging.CeilDivUnique` | src/features/novels/services/novel.service.ts:66 | with a positive limit, the page count is the only n with (n−1)·limit < total ≤ n·limit |
| `Paging.HasNextIff` | src/features/novels/services/novel.service.ts:74 | with a positive limit, `page < totalPages` holds exactly when page·limit < total |
| `Paging.CeilDivExamples` | src/shared/services/response.service.ts:42 | (25,10)→3, (30,10)→3, (31,10)→4, (0,10)→0, (5,10)→1 |
| `NoteRepository.Position` | src/features/notes/repositories/note.repository.ts:38 | `findIndex` by id: −1 exactly when no note has the id. Otherwise the note at the result has the id, and no earlier note does |
| `NoteRepository.FindIndex` | src/features/notes/repositories/note.repository.ts:38 | the scanning loop finds the position `Position` specifies |
| `NoteRepository.RemovedIdAbsent` | src/features/notes/repositories/note.repository.ts:50-56 | with distinct ids, splicing out the note at an id's position leaves no note with that id |
| `NoteRepository.NoteStore.constructor` | src/features/notes/repositories/note.repository.ts:8-16 | the store starts with the single note 1 'Welcome to Elysia Notes!' and `nextId` 2 |
| `NoteRepository.NoteStore.FindById` | src/features/notes/repositories/note.repository.ts:22-24 | the note with the id when one is stored, otherwise nothing |
| `NoteRepository.NoteStore.Create` | src/features/notes/repositories/note.repository.ts:26-35 | appends a note whose id is the old `nextId` and increments `nextId`. The count grows by one, and the invariant holds: ids are distinct and below `nextId` |
| `NoteRepository.NoteStore.Update` | src/features/notes/repositories/note.repository.ts:37-48 | an absent id gives null and an unchanged store. Otherwise only that slot's content and `updatedAt` change, and the id, `createdAt`, position and the other notes stay |
| `NoteRepository.NoteStore.Delete` | src/features/notes/repositories/note.repository.ts:50-56 | an absent id gives false and changes nothing. Otherwise exactly that note is spliced out, the others keep their order, the count drops by one and the id is no longer found |
| `NoteRepository.NoteStore.Count` | src/features/notes/repositories/note.repository.ts:58-60 | the number of stored notes |
| `NoteRepository.CreateTwice` | src/features/notes/repositories/note.repository.ts:26-35 | two creates give different ids and raise the count by two |
| `NoteService.BlankIffWhitespace` | src/features/notes/services/note.service.ts:26 | the blank-content guard rejects exactly the all-white-space contents |
| `NoteService.GetAllNotes` | src/features/notes/services/note.service.ts:13-15 | the repository's list, as stored |
| `NoteService.GetNoteById` | src/features/notes/services/note.service.ts:17-23 | fails with 'Note not found' exactly when no note has the id; otherwise returns that note |
| `NoteService.CreateNote` | src/features/notes/services/note.service.ts:25-30 | blank content fails with 'Note content cannot be empty' and leaves the store untouched. Other content is stored untrimmed as the repository's new note |
| `NoteService.UpdateNote` | src/features/notes/services/note.service.ts:32-42 | the blank check comes before the existence check. A missing id with non-blank content fails with 'Note not found' and changes nothing. Otherwise the repository's update applies |
| `NoteService.DeleteNote` | src/features/notes/services/note.service.ts:44-50 | true when a note was removed, 'Note not found' (with nothing changed) otherwise |
| `NoteService.GetNoteCount` | src/features/notes/services/note.service.ts:52-54 | the length of the store |
| `NotesPlugin.SpliceStart` | src/routes/notes/notes.index.ts:12 | where `splice(index, 1)` starts. An in-range index is used as is, and a negative one counts from the end. An index at or past the length gives the length, and one before the start gives 0 |
| `NotesPlugin.Note.constructor` | src/routes/notes/notes.index.ts:4 | a fresh `Note` holds `['Moonhalo??']` |
| `NotesPlugin.Note.WithData` | src/routes/notes/notes.index.ts:4 | a `Note` built with a list holds that list |
| `NotesPlugin.Note.Add` | src/routes/notes/notes.index.ts:6-9 | appends at the end, the length grows by one, and the whole list is returned |
| `NotesPlugin.Note.Remove` | src/routes/notes/notes.index.ts:11-13 | deletes exactly the element at the splice start, shifts the later elements left and returns it as a one-element list. Past the end it removes and returns nothing |
| `NotesPlugin.Note.Update` | src/routes/notes/notes.index.ts:15-17 | sets one position to the string and returns the string. The length and every other element are unchanged |
| `NotesPlugin.GetAt` | src/routes/notes/notes.index.ts:26-28 | the element when the position exists, Not Found otherwise |
| `NotesPlugin.PatchAt` | src/routes/notes/notes.index.ts:46-53 | updates only a valid position; any other index answers Unprocessable Content and leaves the list as it was |
| `NotesPlugin.DeleteAt` | src/routes/notes/notes.index.ts:63-69 | removes only a valid position and answers with it; any other index answers nothing and changes nothing |
| `UserRepository.FindById` | src/features/users/repositories/user.repository.ts:7-15 | a user with the id and a null `deletedAt`, or nothing exactly when there is none |
| `UserRepository.FindByEmail` | src/features/users/repositories/user.repository.ts:17-25 | a user with the email and a null `deletedAt`, or nothing exactly when there is none |
| `UserRepository.Exists` | src/features/users/repositories/user.repository.ts:53-61 | true exactly when some user that is not deleted has that email |
| `UserRepository.DeletedIsHidden` | src/features/users/repositories/user.repository.ts:43-51 | with unique keys, a soft-deleted user is found neither by id nor by email |
| `UserRepository.UserRepository.Create` | src/features/users/repositories/user.repository.ts:27-31 | inserts the row with the column defaults. The unique constraints on id and email (deleted rows included) refuse a duplicate and leave the table unchanged |
| `UserRepository.UserRepository.Update` | src/features/users/repositories/user.repository.ts:33-41 | patches only the supplied fields of the live user and refreshes `updatedAt`. It returns nothing for absent or deleted users. A new email held by another row violates the constraint |
| `UserRepository.UserRepository.SoftDelete` | src/features/users/repositories/user.repository.ts:43-51 | stamps `deletedAt` on the live user and returns the row. It returns nothing for absent or deleted users, and afterwards the id is not found |
| `UserService.ToNewUser` | src/features/users/services/user.service.ts:30-33 | the role defaults to reader when omitted; a supplied role is kept |
| `UserService.UserService.GetUserById` | src/features/users/services/user.service.ts:10-12 | the repository's `findById` result |
| `UserService.UserService.GetUserByEmail` | src/features/users/services/user.service.ts:14-16 | the repository's `findByEmail` result |
| `UserService.UserService.CreateUser` | src/features/users/services/user.service.ts:18-34 | an email held by a live user fails with 'User with this email already exists' and inserts nothing. Otherwise the repository inserts with the role defaulted |
| `UserService.UserService.UpdateUser` | src/features/users/services/user.service.ts:36-46 | patches the first live user with the id and returns the patched row. Returns nothing, and leaves the store unchanged, when there is no such user. Only that user's row changes |
| `UserService.UserService.DeleteUser` | src/features/users/services/user.service.ts:48-50 | with no live user holding the id: returns nothing and changes nothing. Otherwise returns that row with `deletedAt` and `updatedAt` set to now. The store then differs only in that row, and `getUserById` afterwards returns nothing |
| `NovelOrder.Sort` | src/features/novels/repositories/novel.repository.ts:116-142 | `ORDER BY` the chosen column and direction: a permutation of the rows, ordered by SQLite's comparison (NULL first, then numbers, then text by code point) |
| `NovelRepository.AuthorOf` | src/features/novels/repositories/novel.repository.ts:17-35 | the left join on the author: the user with the novel's author id, projected to id, name, email, avatar and role, or null when there is none |
| `NovelRepository.FindById` | src/features/novels/repositories/novel.repository.ts:17-35 | the novel with its author only if it exists with a null `deletedAt`, otherwise nothing |
| `NovelRepository.Count` | src/features/novels/repositories/novel.repository.ts:148-199 | the number of rows satisfying the same conjunction as `findMany`. It is zero exactly when no novel matches |
| `NovelRepository.CountedRows` | src/features/novels/repositories/novel.repository.ts:148-199 | `count` counts each matching row once per occurrence and no other row |
| `NovelRepository.Start` | src/features/novels/repositories/novel.repository.ts:144 | where `OFFSET` starts: never past the end. An in-range offset is used as is, a negative one starts at 0, and one past the end starts at the end |
| `NovelRepository.Window` | src/features/novels/repositories/novel.repository.ts:144 | `LIMIT`/`OFFSET` take one contiguous slice. They skip `offset` rows, where a negative offset counts as 0. They keep at most `limit` rows, and a negative limit keeps all |
| `NovelRepository.FindMany` | src/features/novels/repositories/novel.repository.ts:37-146 | returns at most `limit` (default 20) rows. The rows are the window after `offset` of the ranked matches, each joined to its author. Every row is a stored novel that is not deleted and satisfies every truthy filter. Rows come ordered by the sort column and direction, by default `createdAt` descending |
| `NovelRepository.Matching` | src/features/novels/repositories/novel.repository.ts:62-97 | the conditions built from the filters. A stored novel is kept exactly when it is not deleted and meets each given filter: the author, the status, the search term in title or description, one of the categories, one of the tags |
| `NovelRepository.PageSize` | src/features/novels/repositories/novel.repository.ts:144 | a page holds min(limit, count − offset) rows, never a negative number |
| `NovelRepository.LinkedRows` | src/features/novels/repositories/novel.repository.ts:257-279 | the categories or tags a novel's junction rows point at: every row returned is linked, and every linked existing row is returned |
| `NovelRepository.LinksFor` | src/features/novels/repositories/novel.repository.ts:281-301 | one junction row per supplied id, in order |
| `NovelRepository.Unlinked` | src/features/novels/repositories/novel.repository.ts:303-328 | an absent or empty list removes every link of the novel, otherwise only the listed ids. Every other link is kept |
| `NovelRepository.ReplaceLinks` | src/features/novels/repositories/novel.repository.ts:303-328 | removing all of a novel's links and adding a list leaves exactly that list for the novel and leaves every other novel's links as they were |
| `NovelRepository.InsertedNovel` | src/features/novels/repositories/novel.repository.ts:201-204 | an inserted novel keeps the given id, title, author, description and cover image. Language defaults to 'vi' and status to ongoing when omitted. It starts with no views, no chapters, rating 0, no publication and no deletion, created and updated now |
| `NovelRepository.NovelRepository.Create` | src/features/novels/repositories/novel.repository.ts:201-204 | appends the inserted row; a duplicate id is refused and the table is unchanged |
| `NovelRepository.NovelRepository.Update` | src/features/novels/repositories/novel.repository.ts:206-214 | patches only a live novel with the id and refreshes `updatedAt`; otherwise returns nothing and changes nothing |
| `NovelRepository.NovelRepository.SoftDelete` | src/features/novels/repositories/novel.repository.ts:216-224 | stamps `deletedAt` on the live novel only, so a second delete returns nothing. Afterwards `findById` returns nothing |
| `NovelRepository.NovelRepository.IncrementViews` | src/features/novels/repositories/novel.repository.ts:247-255 | raises `totalViews` by exactly one and refreshes `updatedAt` and nothing else. Deleted novels are not excluded |
| `NovelRepository.NovelRepository.UpdateTotalChapters` | src/features/novels/repositories/novel.repository.ts:226-238 | stores the number of chapters of the novel that are not deleted |
| `NovelRepository.NovelRepository.UpdateAverageRating` | src/features/novels/repositories/novel.repository.ts:240-245 | stores the supplied rating and refreshes `updatedAt` |
| `NovelRepository.NovelRepository.AddCategories` | src/features/novels/repositories/novel.repository.ts:281-290 | appends one junction row per id; an empty list writes nothing |
| `NovelRepository.NovelRepository.AddTags` | src/features/novels/repositories/novel.repository.ts:292-301 | appends one junction row per id; an empty list writes nothing |
| `NovelRepository.NovelRepository.RemoveCategories` | src/features/novels/repositories/novel.repository.ts:303-318 | deletes the novel's listed category links, or all of them for an absent or empty list |
| `NovelRepository.NovelRepository.RemoveTags` | src/features/novels/repositories/novel.repository.ts:320-328 | deletes the novel's listed tag links, or all of them for an absent or empty list |
| `NovelService.GetNovelById` | src/features/novels/services/novel.service.ts:10-26 | the live novel with its author, categories and tags, or nothing exactly when `findById` finds nothing |
| `NovelService.QueryOf` | src/features/novels/services/novel.service.ts:41-45 | page defaults to 1 and limit to 20. The repository is asked for offset (page−1)·limit with the same filters that `count` receives |
| `NovelService.PaginationFor` | src/features/novels/services/novel.service.ts:66-77 | echoes page, limit and total, with `totalPages = ceil(total/limit)`, `hasNext = page < totalPages` and `hasPrev = page > 1` |
| `NovelService.HasNextMeansMoreRows` | src/features/novels/services/novel.service.ts:66-77 | with a positive limit, there is a next page exactly when rows remain after this one |
| `NovelService.GetNovels` | src/features/novels/services/novel.service.ts:28-79 | the `findMany` page with each novel's categories and tags, plus the pagination block over `count` of the same filters |
| `NovelService.ListingAgreesWithTotal` | src/features/novels/services/novel.service.ts:41-47 | every listed novel satisfies the filters that `total` counts, and a page holds min(limit, total − offset) novels |
| `NovelService.Discovery` | src/features/novels/services/novel.service.ts:195-253 | the discovery listings keep the caller's paging and lists and force their sort column, descending |
| `NovelService.ByAuthor` | src/features/novels/services/novel.service.ts:170-179 | the author listing keeps paging and status and forces the author id |
| `NovelService.BySearch` | src/features/novels/services/novel.service.ts:181-193 | the search listing keeps the caller's options and forces the search term |
| `NovelService.GetPopularNovels` | src/features/novels/services/novel.service.ts:195-208 | the total counts every live novel in the given categories and tags, whatever its author, status or text. Page and limit default to 1 and 20 |
| `NovelService.GetTopRatedNovels` | src/features/novels/services/novel.service.ts:210-223 | the total counts every live novel in the given categories and tags. Page and limit default to 1 and 20 |
| `NovelService.GetRecentNovels` | src/features/novels/services/novel.service.ts:225-238 | the total counts every live novel in the given categories and tags. Page and limit default to 1 and 20 |
| `NovelService.GetRecentlyUpdatedNovels` | src/features/novels/services/novel.service.ts:240-253 | the total counts every live novel in the given categories and tags. Page and limit default to 1 and 20 |
| `NovelService.GetNovelsByAuthor` | src/features/novels/services/novel.service.ts:170-179 | the total counts the author's live novels with the given status, ignoring any search, category or tag. Page and limit default to 1 and 20 |
| `NovelService.SearchNovels` | src/features/novels/services/novel.service.ts:181-193 | the total counts the live novels containing the term, in the given categories and tags, of any author or status. Page and limit default to 1 and 20 |
| `NovelService.ListedInOrder` | src/features/novels/services/novel.service.ts:28-79 | listed novels appear in the requested order |
| `NovelService.PopularByViews` | src/features/novels/services/novel.service.ts:195-208 | the popular listing is ordered by views, most viewed first |
| `NovelService.TopRatedByRating` | src/features/novels/services/novel.service.ts:210-223 | the top-rated listing is ordered by rating, highest first, with unrated novels last |
| `NovelService.RecentByCreation` | src/features/novels/services/novel.service.ts:225-238 | the recent listing is ordered by creation time, newest first |
| `NovelService.RecentlyUpdatedByUpdate` | src/features/novels/services/novel.service.ts:240-253 | the recently-updated listing is ordered by last update, newest first |
| `NovelService.AuthorListingOwnNovels` | src/features/novels/services/novel.service.ts:170-179 | every novel listed for a non-empty author id belongs to that author and is not deleted |
| `NovelService.SearchListingContainsTerm` | src/features/novels/services/novel.service.ts:181-193 | every novel a non-empty search lists has the term in its title or description |
| `NovelService.ToNewNovel` | src/features/novels/services/novel.service.ts:94-101 | an absent or empty language becomes 'vi', an absent status becomes ongoing, and everything else passes through |
| `NovelService.ReplacedLinks` | src/features/novels/services/novel.service.ts:134-148 | a supplied list, even an empty one, becomes exactly the novel's links. An omitted list leaves them unchanged. Other novels' links never change |
| `NovelService.NovelService.CreateNovel` | src/features/novels/services/novel.service.ts:81-114 | inserts with the defaults and adds junction rows only for non-empty lists. It returns `getNovelById` of the new id, which is present. A duplicate id fails before anything is written |
| `NovelService.NovelService.UpdateNovel` | src/features/novels/services/novel.service.ts:116-152 | returns null and touches no junction rows when no live novel has the id. Otherwise it patches the novel and replaces supplied lists, then returns the novel as `getNovelById` reads it |
| `NovelService.NovelService.DeleteNovel` | src/features/novels/services/novel.service.ts:154-156 | with no live novel holding the id: returns nothing and changes nothing. Otherwise returns that row with `deletedAt` and `updatedAt` set to now. The store then differs only in that row, and `getNovelById` afterwards returns nothing |
| `NovelService.NovelService.IncrementNovelViews` | src/features/novels/services/novel.service.ts:158-160 | the novel's views grow by one and `updatedAt` is refreshed; nothing else changes |
| `NovelService.NovelService.UpdateNovelChapterCount` | src/features/novels/services/novel.service.ts:162-164 | the novel's chapter count becomes its number of live chapters and `updatedAt` is refreshed; nothing else changes |
| `NovelService.NovelService.UpdateNovelRating` | src/features/novels/services/novel.service.ts:166-168 | the novel's rating becomes the supplied one and `updatedAt` is refreshed; nothing else changes |
| `Response.Success` | src/shared/services/response.service.ts:12-16 | success true with the data. The message defaults to 'Success'. The envelope is well formed |
| `Response.SuccessNoData` | src/shared/services/response.service.ts:18-21 | success true with the message and no data field |
| `Response.Error` | src/shared/services/response.service.ts:23-27 | success false, with the error and the optional message |
| `Response.Paginated` | src/shared/services/response.service.ts:29-44 | echoes data, page, limit and total, with the message 'Data retrieved successfully' and `totalPages = ceil(total/limit)` |
| `Response.PaginatedPageCount` | src/shared/services/response.service.ts:42 | with a positive limit, `totalPages` is n exactly when (n−1)·limit < total ≤ n·limit |
| `Response.PaginatedExamples` | src/shared/services/response.service.ts:42 | the page counts 3, 3, 4, 0 and 1 for totals 25, 30, 31, 0 and 5 at limit 10 |
| `Env.RequiredString` | src/config/env.ts:11 | a missing `DATABASE_URL` aborts with a required issue. An empty one gives the min(1) issue. Otherwise the value passes |
| `Env.PositiveNumber` | src/config/env.ts:15 | absent means the default. A NaN coercion aborts. A number that is not above 0 gives a non-aborting issue |
| `Env.NodeEnvField` | src/config/env.ts:17 | absent means development. Exactly 'development', 'production' and 'test' are accepted, each as itself, and anything else aborts |
| `Env.CorsCredentialsExact` | src/config/env.ts:21-24 | credentials are on for the exact string 'true' only. Absent, 'TRUE', 'True', '1', 'false', empty and padded values all give false |
| `Env.JwtSecretField` | src/config/env.ts:27 | optional; present but empty gives the min(1) issue |
| `Env.Validate` | src/config/env.ts:9-43 | a failure always carries at least one issue |
| `Env.ValidateSucceedsIff` | src/config/env.ts:9-43 | validation succeeds exactly when every rule of the schema and the production rule accept the environment |
| `Env.AcceptedValues` | src/config/env.ts:15-28 | an accepted environment yields its own values, with the defaults PORT 6969, HOST 'localhost', NODE_ENV development, CORS_ORIGIN '*' and BCRYPT_ROUNDS 12. `CORS_CREDENTIALS` is true only for 'true'. Port and rounds are positive |
| `Env.DatabaseUrlRequired` | src/config/env.ts:11 | a missing or empty `DATABASE_URL` fails, and its issue comes first |
| `Env.ProductionNeedsSecret` | src/config/env.ts:32-43 | production without a non-empty `JWT_SECRET` fails. The production issue is reported exactly when no field aborted the object |
| `Env.MinimalEnvironment` | src/config/env.ts:15-28 | an environment with only `DATABASE_URL` gives the all-default configuration |
| `Env.ProductionWithSecret` | src/config/env.ts:32-43 | production with a non-empty `JWT_SECRET` is accepted |

## Left out

- I/O and process behaviour:
  - Controllers, route files and HTTP status mapping are not modelled. Of the `/note` plugin, only the guarded GET, PATCH and DELETE handlers are.
  - `parseEnv`'s message formatting and `process.exit` are not modelled. `Env.Validate` returns the issues instead.
- Concurrency and atomicity:
  - The `Promise.all` concurrency in the novel service runs as sequential steps.
  - Multi-statement writes (`createNovel`, `updateNovel`) are modelled as atomic on the database object. A failure between statements is not modelled.
- Floating point: `averageRating` and every number are integers.
- `JsText.ToNumber`: handles only an optional sign followed by decimal digits, around white space. Fractions, exponents, hexadecimal, `Infinity` and numeric separators read as NaN. So `PORT=1.5` is rejected here, while the program would accept it.
- `NovelRepository.Contains`: the search `LIKE '%term%'` is modelled as exact substring containment. SQLite's ASCII case folding and the `%`/`_` wildcards inside the term are not modelled.
- Row order:
  - `NovelOrder.Sort`: rows with equal sort keys come in the one order the model's insertion sort produces. SQLite leaves the order of ties unspecified.
  - The order of `getNovelCategories`/`getNovelTags` results follows the junction table.
- The database beyond its tables:
  - Foreign keys and cascades are not modelled.
  - Junction rows carry no generated ids.
  - Chapters carry only id, novel id and `deletedAt`.
  - Other schema tables (reviews, comments, follows and so on) are not part of this model.
  - Column defaults the database fills in (UUIDs, timestamps) are parameters.
- `NotesPlugin.Note.Update`: requires a position inside the list. Its only caller checks `index in data` first. Assigning past the end, which makes a sparse array in JavaScript, is not modelled. Fractional indices are not modelled.
- `NoteRepository.NoteStore`: the static class is modelled as one store object passed to the service. The aliasing of the array that `findAll` returns is not modelled: `NoteService.GetAllNotes` returns the value at the time of the call.
