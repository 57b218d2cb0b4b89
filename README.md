# Leaderboard and replay engine of a Jewelry Master score server

This project is a Dafny model of the leaderboard engine in `services.js`. The
engine is two request handlers.

- `getRanking` answers leaderboard queries. It returns either a player's
  personal view (their own slots of one mode, best first) or one ten-row page
  of a mode's global leaderboard. Each global row carries a tier class
  computed from the rank and a per-mode threshold table. The requester's own
  row is highlighted.
- `scoreEntry` records a submitted score. Independently of each other, it
  updates the player's global record and the player's personal list. The
  global record is overwritten only on a strictly higher score, or a new
  record is inserted; the uploaded replay `rep/temp` is renamed to
  `<recordId>.rep` or deleted. The personal list keeps ten slots per mode.

Modules:

- `Model` (model.dfy): entries, records, the configuration flags, and filtering by mode.
- `Sorting` (sorting.dfy): filtering a sequence by a key (`Array.prototype.filter`), and the stable sort that JavaScript's `Array.prototype.sort` performs, written as an insertion sort. Its lemmas prove that the sort orders, permutes and is stable.
- `Replays` (replays.dfy): the `rep/` directory as a map from names to blobs, and the semantics of `unlink` and `rename`.
- `Query` (query.dfy): `getRanking`. It covers rank classes, page selection, the page loop, the personal view and the handler.
- `Submission` (submission.dfy): `scoreEntry` as functions of the stores, with the lemmas for the global record, the replay, and the personal list.
- `Server` (server.dfy): the `Leaderboard` class, whose fields are the stores. `SubmitScore` updates them step by step, and the loaded personal list is sorted in place in an array.

The three `options` flags are a `Config` value fixed when a `Leaderboard` is
built. The store-generated record id is a counter (`nextId`). I/O callbacks
are flattened into one sequential step per request.

## Model

| member | source | states |
|---|---|---|
| `Model.SlotsOfMode` | services.js:275 | the filtered list holds exactly the list's slots of the mode, and no more slots than the list |
| `Model.RecordsOfMode` | services.js:120 | the mode's records are exactly the store's records of that mode |
| `Sorting.FilterSameMultiset` | services.js:275-279 | two lists with the same slots hold the same slots of each mode, and as many, so sorting keeps each mode's count |
| `Sorting.FilterOrdered` | services.js:106-112 | keeping only one mode's rows of a list sorted by score leaves it sorted |
| `Sorting.SortCorrect` | services.js:106 | the stable sort's output is ordered by score and is a permutation of its input |
| `Sorting.SortStable` | services.js:106 | the sort is stable: for every score, the elements with that score appear in the output in their input order |
| `Sorting.SortStableWithin` | services.js:106-112 | stability survives a second filter: among one mode's elements, equal scores keep their input order after sorting |
| `Query.RankClass` | services.js:143-202 | the class is 0, 1 or 2; class 1 only at rank 1; any mode other than "0", "1", "2" gives 0 |
| `Query.RankClassIsTable` | services.js:148-202 | the per-mode switch equals one formula over the threshold table (5M/5M/1M, 10M/5M/10M, 50M/10M/10M) |
| `Query.ModeZeroTopNeverNotable` | services.js:149-158 | in mode "0" the repeated 5,000,000 test makes a rank-1 row class 1 or 0, never 2 |
| `Query.RankOneIgnoresTop30` | services.js:151-164 | a rank-1 row's class does not depend on the record count, so the 30% test never applies to it |
| `Query.OutsideTop30NoClass` | services.js:159-164 | below rank 1, a row with `rank / n < 0.3` has class 0 in every mode |
| `Query.ModeRecords` | services.js:120 | the mode's records come back ordered by score, highest first, form a permutation of the mode's records, and keep store order among equal scores |
| `Query.FindPlayer` | services.js:128 | the result is the first position holding the player's id, or -1 when none does |
| `Query.SelectPage` | services.js:124-132 | a found requester at f gets page f/10, so f lies on that page; otherwise the page is `view`, and -1 means 0 |
| `Query.WindowLen` | services.js:136-139 | a page shows at most ten rows; a non-empty page starts inside the list and stops at its end |
| `Query.GlobalRow` | services.js:141-204 | a global row carries the page, the record's id, player, score, level, time and jewel, a 0 fifth field, the code `<mode+1>` with a class of at most 2, and lit = 1 exactly at the requester's position |
| `Query.PageRows` | services.js:136-205 | rows are the records at `page*10`, `page*10+1`, … in order, at most ten, each carrying its page, record id, player, score, level, time and jewel, with a 0 fifth field |
| `Query.BuildPage` | services.js:136-205 | the counting loop with its early `break` yields exactly `PageRows` |
| `Query.RequesterLit` | services.js:126-141 | a found requester lands on page f/10 whatever `view` is; the row at f is the only row with lit = 1 and shows the requester |
| `Query.NoRequesterNoLit` | services.js:122-141 | without a found requester the page is `view` (-1 means 0) and no row is lit |
| `Query.PageRowClass` | services.js:143-145 | each row's code is `<mode+1>` with the class of rank `(i+1)*(page+1)`, and that rank is at least 1 |
| `Query.SamePageSameRows` | services.js:124-145 | with a numeric page, reaching a page by `view` or as the found requester shows the same rows except for the highlight |
| `Query.RankAsWritten` | services.js:124-145 | with `view` kept as a string, the rank is never below the numeric one, and it is higher on every page after the first |
| `Query.RankAsWrittenDependsOnOrigin` | services.js:124-145 | with `view` kept as a string, the same record on the same page gets rank 121 and class 2, or rank 22 and class 0 |
| `Query.PersonalRow` | services.js:109-110 | a personal row carries the slot's player, score, level, time and jewel; page, record id, fifth field, code and lit are 0 |
| `Query.PersonalSlots` | services.js:106-112 | the personal slots are ordered by score, highest first, are exactly the player's slots of the mode as a multiset, and keep list order among equal scores |
| `Query.PersonalView` | services.js:102-115 | one row per slot of the mode; scores never increase; page, record id, fifth field, code and lit are all 0 |
| `Query.PersonalViewRows` | services.js:106-112 | every row comes from a slot of the requested mode, and every such slot has a row |
| `Query.GetRanking` | services.js:99-211 | an id with view 0 gives the personal view, or the unknown-player failure; otherwise no records gives an empty reply, else the rows of the selected page (at most ten) |
| `Query.ExampleModeOne` | services.js:167-183 | mode "1", scores 12M/9M/1M on page 0 give classes 1, 0, 0 |
| `Replays.ApplyOp` | services.js:246-251 | unlink fails exactly when the file is missing; rename fails exactly when the source is missing, and otherwise moves the blob and replaces the target; a failure changes nothing |
| `Submission.FindRecord` | services.js:239 | the result is the first record of (player, mode), or None when there is none |
| `Submission.SubmitGlobal` | services.js:224-269 | exactly one call disposes of `temp` on every path; with `noScores`, the records and ids are unchanged and only `temp` is unlinked; at most one id is consumed |
| `Submission.HigherScoreReplaces` | services.js:241-248 | a strictly higher score overwrites the record in place under the same id; `<id>.rep` then holds the upload, `temp` is gone, and no other file changes |
| `Submission.NotHigherDiscards` | services.js:249-252 | a score that is not higher leaves the records and ids unchanged, and the directory loses only `temp` |
| `Submission.NewRecordInserted` | services.js:254-269 | with no record for the key, or with multiScores on, a record under a fresh id is appended and the directory becomes `temp` renamed to that id |
| `Submission.TempDisposedOnce` | services.js:224-269 | every path issues exactly one call that disposes of `temp`, and afterwards no `temp` exists |
| `Submission.SingleScoreKeepsKeysUnique` | services.js:241-269 | with multiScores off, one record per (player, mode) stays one |
| `Submission.SubmitKeepsIdsFresh` | services.js:256-268 | record ids stay distinct and below the generator |
| `Submission.SubmitKeepsNamesBelow` | services.js:246-268 | replay files are only ever named after ids already generated |
| `Submission.SubmitKeepsNamesLive` | services.js:241-268 | every `<n>.rep` still belongs to a live record after a submission, so no replay is orphaned |
| `Submission.FirstOfMode` | services.js:279 | the result is the first slot of the mode, or -1 when there is none |
| `Submission.FirstOfModeFound` | services.js:276-279 | a list holding a slot of the mode has a first such slot, so `rankings[index]` exists |
| `Submission.PersonalUpdate` | services.js:273-290 | below (or above) ten slots of the mode the entry is appended; a persisted list contains the entry and grows by one, or keeps its length when full |
| `Submission.FirstOfItsScore` | services.js:279 | a lowest slot of the mode that is the first of the mode with its score is the first lowest slot of the mode in the list |
| `Submission.FirstLowestOfMode` | services.js:278-279 | the first slot of the mode after the stable ascending sort is the first lowest slot of the mode in list order |
| `Submission.PersonalAtCap` | services.js:276-285 | at ten slots the entry is kept iff it beats the lowest slot of its mode; it replaces the first such slot in list order, and the persisted list is the old list sorted ascending (stably) with the entry in that slot's place |
| `Submission.PersonalBelowCap` | services.js:286-289 | below the cap the entry is appended and its mode gains exactly one slot |
| `Submission.ExchangeKeepsModes` | services.js:283 | swapping a slot for an entry of the same mode keeps every mode's count and leaves other modes' slots unchanged |
| `Submission.PersonalKeepsCap` | services.js:273-290 | a mode with at most ten slots still has at most ten; other modes' slots are unchanged as a multiset |
| `Submission.SubmitKeepsWithinCap` | services.js:273-290 | if every player is within ten slots per mode, that still holds after a submission |
| `Server.InsertAt` | services.js:278 | one insertion step: the prefix becomes the stable insertion of the next element; later elements are untouched |
| `Server.SortAscending` | services.js:278 | the array is left as the stable ascending sort of its old contents |
| `Server.ReplaceLowest` | services.js:276-285 | sorting the loaded full list and overwriting its first slot of the mode yields exactly the list `PersonalUpdate` persists, iff it persists one |
| `Server.Leaderboard.RegisterPlayer` | services.js:55-78 | an unknown, non-empty id with registration on gets an empty personal list; otherwise registration is refused and nothing changes |
| `Server.Leaderboard.StageUpload` | routes.js:10-13 | the upload is stored as `temp`, replacing any earlier one |
| `Server.Leaderboard.UnlinkFile` | services.js:251 | the directory and success flag are those of `unlink` |
| `Server.Leaderboard.RenameFile` | services.js:247 | the directory and success flag are those of `rename` |
| `Server.Leaderboard.UpdateGlobal` | services.js:239-271 | the records, the id generator and the calls issued are those of `SubmitGlobal`; the directory and the failed calls are those of running the calls |
| `Server.Leaderboard.UpdatePersonal` | services.js:273-291 | the player's list becomes `PersonalAfter`; an unknown player changes nothing; the cap invariant is kept |
| `Server.Leaderboard.SubmitScore` | services.js:221-292 | the whole submission keeps `Valid()`, including that every replay belongs to a live record; with `noScores` the stores are untouched; otherwise global then personal as above; `temp` never survives |

## Left out

- Login (`gameEntry`, services.js:30-80) is left out: it is password hashing and user lookup. The only part kept is the registration branch (`RegisterPlayer`): its guard and the new player's empty list.
- `index`, `getMessage`, `getName` and `getReplay` are left out. They are empty replies, file reads and a file download.
- HTTP routing and the multer upload are left out. `StageUpload` stands for the upload landing as `rep/temp`.
- The wire text is left out. A row is a structured `Row` of its ten fields in order. The decimal rendering, the `\n` joining of fields and the `.` joining of rows are not modelled.
- Concurrency is left out. The source issues the global and personal updates, and the `unlink` and `rename` of a replacement, without awaiting one another. The model runs one submission as one sequential step, with the unlink before the rename. Races between submissions are not modelled.
- Persistence errors are left out. The source ignores database errors (`e` in the callbacks). A file-system error is thrown inside a callback. In the model, a failing `unlink` or `rename` changes nothing and is listed in `Outcome.failed`. The process crash that follows is not modelled.
- An unknown player makes the source throw on `u.rankings`. The model answers `UnknownPlayer` to a personal query. A submission gives `PlayerMissing` and writes no personal list.
- JavaScript coercions are left out. Scores and payload fields are naturals. `mode` is a natural, so `parseInt(mode)` is the mode itself. `view` is an integer. An absent `id` is the empty string. Non-numeric or non-canonical `mode`/`view` strings are not modelled.
- The float test `rank / r.length >= 0.3` is decided as `10 * rank >= 3 * n`. This agrees with the double comparison for every count a store can hold.
- The database breaks ties in `sort({ score: -1 })` in an order not shown. The model sorts stably in store order.
- Record ids are database-generated object ids. The model uses a counter, so ids are fresh by construction.
- A personal row's `lit` is `r == 0` with `r` a slot object. That comparison is always false, so the model emits 0.
- Query.PageRows: every row's rank is computed as `(i+1)*(page+1)`, on every page. When the page comes from `view`, the source instead computes `(i+1)*(10*view+1)`, because `index` is still a string (see Findings). `Query.RankAsWritten` models that rank; the rest of the model uses the numeric one.
- `Query.RequesterPos`: only its range is stated. Its meaning is `FindPlayer`'s when an id is given.
- In these places the code behaves differently from the service's documented intent. The model follows the code:
  - A missing artifact on removal is a failure, not a silent success.
  - A full personal list is persisted as the old list sorted ascending by score, with the entry in the replaced slot's place. The entry may outscore the slots after it, so the persisted list need not be in ascending order.
  - The cap test is `== 10`, so a list with more than ten slots of a mode keeps appending.
  - A personal query for an unknown player fails rather than returning an empty result.
  - The personal update runs on every submission unless `noScores` is set, whatever happened to the global record (services.js:273-290). A score that does not beat the player's global record is still appended to a personal list below the cap, and can replace the lowest slot at the cap.
  - A rank-1 row never takes the top-30% test: the `else if` at services.js:151-164 makes class 2 at rank 1 depend only on the rank-1 branch. In mode "0" that branch repeats the 5,000,000 test, so a lone record scoring 2,000,000 gets class 0, though it is in the top 30% and meets the 1,000,000 threshold (`Query.RankOneIgnoresTop30`, `Query.ModeZeroTopNeverNotable`).

## Findings

| source | as written | input that shows it | evidently intended | confidence | as-written member | corrected member |
|---|---|---|---|---|---|---|
| services.js:124-145 | when no requester is found and `view` is not `'-1'`, `index` keeps the query string, so `index + 1` concatenates and the rank factor is `10*page + 1` | mode "1", 100 records, the record at position 10 scores 10,000,000. With `view=1` its rank is 121 and its class 2. As the found requester on page 1 its rank is 22 and its class 0 | `index + 1` is numeric, so a row's rank and class do not depend on how its page was chosen | medium, not executed | `Query.RankAsWrittenDependsOnOrigin` | `Query.SamePageSameRows` |
