# github-fetch statistics merge, modelled in Dafny

The command-line tool takes a repository name and an optional access token
from its argument vector. It fetches two lists from the hosting provider:
the repository's comments, each with a `user`, and its contributor
statistics, each with an `author` and a commit `total`. It merges the two
lists per user id and prints a table ranked by comment count, then commit
count. This project models the logic that sits between the fetches and the
table, plus the argument lookup:

- `readArgv` (module `Argv`): the value after the last `--name` in the
  argument vector, absent when the flag is missing or is the final element.
- `createUserIfNotExist` and the `reduce` inside `aggregateData`
  (module `Merge`): a left fold over the concatenated records into a map
  from user id to `{id, userName, commentsCount, commitsCount}`. A record with
  an `author` (an object is truthy) sets that user's `commitsCount` to its
  `total`. Otherwise a record with a `user` adds one comment. A record with
  neither is skipped. A new entry takes the login of the record that
  introduced it.
- `Object.values` and lodash `orderBy` (module `Ranking`). Integer keys are
  enumerated in ascending numeric order. `orderBy` is a stable sort on
  `commentsCount` and then `commitsCount`, both descending. So entries that
  tie on both keys come out in ascending id order. The model keeps this
  exact tie order rather than leaving it open.
- `aggregateData` itself (module `Aggregate`), with its declared parameter
  order `(usersWithCommits, usersWithComments)`. It spreads
  `usersWithComments` first.
- The call site and the row projection (modules `Command`, `Rows`). The
  command calls `aggregateData(usersWithComments, usersWithCommits)`, the
  reverse of the declared order. So the contributor statistics are the
  records visited first, and they decide `userName` when a user's records
  disagree on the login. Each entry becomes the row
  `[id, userName, commentsCount, commitsCount]` under the header
  `id | userName | comments | commits`.

The merge is specified independently of the fold by `Merge.Expected`. Given
the records and an id, it yields nothing when no record is counted for the
id. Otherwise it yields the login of the first record counted for the id,
the number of comments by it, and the `total` of its last contributor
statistic (0 when it has none). `Merge.TallyMatchesExpected` proves that the
fold produces exactly this for every id. `Aggregate.AggregateData` states
the result in these terms.

Two details of the program decide its output and are easy to misread:
- The parameter names of `aggregateData` suggest that comment records are
  visited first. The one call site (index.js:83) swaps the arguments, so the
  contributor statistics come first.
- `Object.values` yields integer keys in ascending order. So entries that
  tie on both sort keys come out by ascending id, not in the order their
  users first appeared.

Determinism (running the merge twice gives the same result) holds because
every operation here is a Dafny function; it needs no separate lemma.

## Model

| member | source | states |
|---|---|---|
| Argv.IndexAfterFlag | index.js:14-24 | The fold's accumulator is one past the last position holding `--param`, and absent exactly when no element equals it. |
| Argv.ReadArgv | index.js:13-26 | When the last occurrence of `--param` has a successor, the result is that successor. The result is absent iff the flag never occurs or the final element is the flag. An earlier occurrence is then not consulted. |
| Merge.CreateUserIfNotExist | index.js:47-51 | Existing entries are never overwritten. A new id gets zero counts and the login of the account that introduced it. The key set grows by exactly that id. |
| Merge.Step | index.js:58-66 | A record with neither `author` nor `user` leaves the map unchanged. An author record never changes any comment count, and it sets its user's commit count to its `total`. A new user it introduces gets its login and zero comments. A comment record adds one to its user's comment count and keeps the commit count; a new user gets its login, one comment and zero commits. No existing entry's id or userName changes. Only the record's own user can be added or changed. Keying by id is preserved. |
| Merge.Tally | index.js:56-69 | The folded map stores every entry under its own id. |
| Merge.FirstMention | index.js:47-50 | The reference "first record counted for the id". The position returned mentions the id and no earlier record does. It is absent iff no record mentions the id. |
| Merge.LastContribution | index.js:59-61 | The reference "last author record for the id". The position returned is an author record for the id and no later record is. It is absent iff there is none. |
| Merge.StepMatchesExpected | index.js:58-66 | If a map agrees with the reference description of a record list at an id, one fold step keeps it in agreement after the record is appended. |
| Merge.TallyMatchesExpected | index.js:47-70 | For every id, the folded map has an entry iff some record is counted for the id. The entry holds the first login, the number of comments by the id, and the last author record's `total` (0 if none). |
| Ranking.AscendingKeys | index.js:55 | The key enumeration contains every key exactly once, in strictly ascending order. |
| Ranking.ObjectValues | index.js:55-70 | The value list has one element per map entry. Every entry occurs and nothing else does. When entries are keyed by their id, ids ascend strictly. |
| Ranking.Insert | index.js:71-72 | Insertion adds exactly one element (a multiset equality). It keeps the list ordered by comments then commits, descending. |
| Ranking.OrderBy | index.js:54-73 | The sorted list is a permutation of its input. Consecutive entries satisfy: more comments, or equal comments and at least as many commits. |
| Ranking.OrderByBreaksTiesById | index.js:54-72 | Stability: when input ids ascend, entries equal on both sort keys come out in ascending id order. The output is strictly ordered by (comments desc, commits desc, id asc). |
| Aggregate.Concatenated | index.js:56 | The comment-list parameter occupies the first positions of the visited records and the commit-list parameter follows. |
| Aggregate.AggregateData | index.js:53-74 | Each output entry is the reference description of its id over `usersWithComments + usersWithCommits`. Every mentioned id appears, and no id twice. The output is ranked by comments then commits descending, with remaining ties by ascending id. Since every entry needs a record counted for its id, two empty lists give an empty result. |
| Aggregate.CountsIgnoreListOrder | index.js:56-66 | When the comment list holds no author record, either concatenation order gives the same set of ids with the same comment and commit counts. Only userName can depend on the order. |
| Rows.HeaderNamesEachField | index.js:8 | The heading row has four distinct headings. A heading names a statistic field exactly when it is one of them. |
| Rows.ToRow | index.js:84 | A row has one cell per header column. Each cell holds the field its column heading names. |
| Rows.FromRow | index.js:84 | A row that reads back as a statistic has the header's width and is exactly that statistic's projection. |
| Rows.ToRows | index.js:84 | The projection keeps the length and order. Row i reads back as entry i. |
| Command.GrabStatistic | index.js:83-84 | At the call site, each printed row shows the reference description of its user over `usersWithCommits + usersWithComments` (contributors first). Every mentioned user has exactly one row. Every earlier row ranks above every later one by (comments desc, commits desc, id asc). |
| Command.CallSiteTakesLoginFromContributors | index.js:83 | With the contributor statistics visited first, a user who has one is described by the login of their first statistic, whatever logins their comments carry. With `GrabStatistic`, that is the login their row shows. |
| Scenarios.TwoUsersScenario | index.js:83-84 | Comments by user 1 (twice) and user 2 (once), plus a statistic for user 1 with total t, print the rows `[1, a, 2, t]` then `[2, b, 1, 0]`. |
| Scenarios.LoginConflictScenario | index.js:83 | A comment and a statistic for the same id with different logins print the statistic's login. Calling with the declared parameter order would give the comment's login. |

## Left out

- The two HTTP fetches (index.js:36-44) are network I/O through a library outside this model. Their results are the parameters of the merge.
- The default `Authorization` header (index.js:33) is left out. It is always set, and reads `token undefined` when no token is given.
- The loading spinner and the `cli-table` rendering (index.js:4, 7-10, 78, 81, 86-87) are left out, including the column widths 10/15/10/10. These are terminal UI in external libraries. Only the row contents and the column headings are modelled.
- The top-level guards and `process.exit` (index.js:90-98) are process control and console output. Note that `!REPO` also treats an empty-string value as missing, which `Argv.ReadArgv` returns as present.
- The `async`/`await` sequencing of the command (index.js:77-88) is left out. A failed fetch is not handled anywhere in the program.
- `Records.ApiRecord` always carries an integer `total`. An author record without `total` would store `undefined` as the commit count; this is not modelled.
- User ids are modelled as natural numbers compared as numbers. In JavaScript they are object property keys. `Object.values` yields them in ascending order only while they are array-index-like (below 2^32 - 1); larger keys come in insertion order. Keys that differ in type but print alike (`1` and `"1"`) would collide. Neither case is modelled.
- `Argv.ReadArgv` works on the whole argument vector, including the interpreter and script paths that `process.argv` starts with.
