# suno2openai credential table

A Dafny model of the credential pool of Suno2openai: the `suno2openai` table behind
`DatabaseManager` in `sql_uilts.py`. Each row holds one Suno account cookie. It also holds
two nullable job slots (`songID`, `songID2`), which name the in-flight generation jobs
bound to that account. The remaining quota is `count`, and `time` is the time of the last
upsert or slot assignment (`insert_or_update_cookie`, `update_song_ids_by_cookie`).
The proxy asks this table for an idle credential, and it finds the credential that
owns a job by that job's id. It releases a job's slots when the job is done, and it changes
quotas.

The UNIQUE index on `cookie` makes the table a finite map from cookie to row:

- `cookie_table.dfy` (module `CookieTable`) defines the row, the table and one function
  per SQL statement. A read-only query returns its answer. An update returns the new table.
- `sql_utils.dfy` (module `SqlUtils`) defines the class `DatabaseManager`. Its `table` field
  is the shared table, and its `clock` field is the latest time at which a time-refreshing
  statement ran.
  Each updating statement is a method that changes the field in place. Each method is
  proved to leave exactly the table that the matching `CookieTable` function gives.
  `DeleteSongIds` visits the rows one at a time, as the multi-row UPDATE does. The
  read-only queries are the `CookieTable` functions applied to `table`.
- `table_properties.dfy` (module `TableProperties`) holds properties that relate
  operations: which row allocation picks, job affinity after binding and release,
  idempotence, and the two quota paths.

Modelling choices:

- `ORDER BY time DESC LIMIT 1` does not fix a row among equal times. `fetchone()` without
  `ORDER BY` does not fix a row among several holders. Both choices are ghost functions
  that pick some qualifying row. Their contracts state only what every such row satisfies.
  A Dafny function is deterministic, so the model fixes one choice per table: two lookups
  on the same table give the same answer, where two separate queries could pick different
  rows among equal times.
- CURRENT_TIMESTAMP is a `now` argument of the two writes that refresh `time`. A call must
  not pass a `now` earlier than the clock. Two writes may share a timestamp, as two writes
  in the same second do.
- The 404 `HTTPException` raised by `get_token` is the error value `Err(NotFound)`.
- `update` in `update_cookie_count` is a boolean that stands for "the argument is not
  None".

Behaviour of the code worth noting:

- `insert_or_update_cookie` overwrites both slots on an existing row, even with NULL. It
  does not merge them (`UpsertDropsJobs`). It also sets `count`; it does not add to it.
- `update_cookie_count` without `update` adds `count_increment`. The comment above it
  speaks of subtracting.
- `decrement_cookie_count` subtracts 1 only where `count > 0`. It does not clamp a
  subtraction.
- `get_token` takes only rows with both slots NULL. No allocation path reuses a row that
  has one free slot. No read-only query binds a job; the caller binds it with
  `update_song_ids_by_cookie`.
- Nothing stops two rows from holding the same job id. Rebinding is not rejected.

## Model

| member | source | states |
|---|---|---|
| `CookieTable.NewestIn` | sql_uilts.py:52-56 | the chosen cookie is one of the candidates and no candidate has a later time (the `ORDER BY time DESC LIMIT 1` pick) |
| `CookieTable.GetToken` | sql_uilts.py:48-61 | a returned cookie names an idle row (both slots NULL, count > 0) whose time is at least that of every idle row; NotFound exactly when no row is idle |
| `CookieTable.GetCookieBySongId` | sql_uilts.py:74-85 | when some row holds the id in either slot, the result is the cookie of such a row; otherwise the result is the `get_token` answer, NotFound included |
| `CookieTable.QueryCookies` | sql_uilts.py:126-131 | a record is in the result exactly when it pairs a cookie of the table with that cookie's row |
| `CookieTable.Upsert` | sql_uilts.py:63-72 | the table gains the cookie if new; its row has the given slots, the given count and time now; every other row is unchanged |
| `CookieTable.ClearSong` | sql_uilts.py:87-95 | afterwards no row holds the id; rows that held it have both slots NULL; counts and times are kept; rows that did not hold it are unchanged |
| `CookieTable.UpdateCount` | sql_uilts.py:97-113 | on an existing cookie the count becomes the argument (update given) or grows by it (update absent), and nothing else of the row changes; other rows and an absent cookie are untouched |
| `CookieTable.Decrement` | sql_uilts.py:115-123 | the count drops by exactly 1 when the row exists with count > 0, else the table is unchanged; other rows are untouched |
| `CookieTable.SetSongIds` | sql_uilts.py:134-142 | the row of the cookie gets the two given slots and time now, and keeps its count; other rows are unchanged; an absent cookie changes nothing |
| `SqlUtils.DatabaseManager.constructor` | sql_uilts.py:34-44 | the manager holds the given cookie-keyed table, with no timestamp after the clock |
| `SqlUtils.DatabaseManager.InsertOrUpdateCookie` | sql_uilts.py:63-72 | the table becomes `Upsert` of the old table at time now, and the clock moves to now |
| `SqlUtils.DatabaseManager.DeleteSongIds` | sql_uilts.py:87-95 | the row-by-row loop leaves exactly `ClearSong` of the old table, and the clock is unchanged |
| `SqlUtils.DatabaseManager.UpdateCookieCount` | sql_uilts.py:97-113 | the table becomes `UpdateCount` of the old table, and the clock is unchanged |
| `SqlUtils.DatabaseManager.DecrementCookieCount` | sql_uilts.py:115-123 | the table becomes `Decrement` of the old table, and the clock is unchanged |
| `SqlUtils.DatabaseManager.UpdateSongIdsByCookie` | sql_uilts.py:134-142 | the table becomes `SetSongIds` of the old table at time now; the clock moves to now and still bounds every timestamp |
| `TableProperties.GetTokenPicksStrictlyNewest` | sql_uilts.py:52-61 | an idle row strictly newer than every other idle row is the one `get_token` returns |
| `TableProperties.GetCookieBySongIdUniqueHolder` | sql_uilts.py:78-83 | when exactly one row holds the id, the lookup returns that row's cookie |
| `TableProperties.QueryCookiesSize` | sql_uilts.py:130-131 | the listing has exactly as many records as the table has rows (each row once) |
| `TableProperties.UpsertRowCount` | sql_uilts.py:42 | with the unique cookie, an upsert adds a row only for a new cookie and never a second row for a known one |
| `TableProperties.UpsertedIdleIsNewest` | sql_uilts.py:67-72 | a cookie upserted with NULL slots and count > 0 is a newest idle row, so `get_token` succeeds afterwards |
| `TableProperties.UpsertDropsJobs` | sql_uilts.py:70 | an upsert with NULL slots leaves the row holding no job id (it overwrites; it does not merge) |
| `TableProperties.ClearSongIdempotent` | sql_uilts.py:91-95 | deleting a job id twice gives the same table as deleting it once |
| `TableProperties.ClearedJobFallsBack` | sql_uilts.py:78-95 | after a job id is deleted, looking it up gives the `get_token` answer |
| `TableProperties.ReleasedRowIsIdle` | sql_uilts.py:54 | a released row with count > 0 becomes idle, so `get_token` succeeds |
| `TableProperties.BoundJobResolves` | sql_uilts.py:78-83 | after a job id is written into a row that no other row shares it with, looking it up returns that row's cookie |
| `TableProperties.BoundRowNotAllocated` | sql_uilts.py:54 | a row with a job written into a slot is never what `get_token` returns |
| `TableProperties.SetSongIdsIsNewest` | sql_uilts.py:139-141 | writing the slots at time now makes that row's time at least every other row's, and no time exceeds now |
| `TableProperties.BindThenRelease` | sql_uilts.py:87-95 | binding a job and then deleting it leaves the row with both slots NULL and its count unchanged |
| `TableProperties.DecrementKeepsNonNegative` | sql_uilts.py:119-123 | a row whose count is non-negative keeps a non-negative count after a decrement |
| `TableProperties.DecrementTimesFloor` | sql_uilts.py:119-123 | n decrements of a row with positive count q leave max(0, q - n); a row with count at most 0 keeps it; nothing else of the table changes |
| `TableProperties.DecrementIsAddMinusOne` | sql_uilts.py:109-123 | on a row with positive count, the guarded decrement is the same update as adding -1 with `update_cookie_count` |
| `TableProperties.AddThenRefund` | sql_uilts.py:109-113 | adding an amount to the count and then adding its negation gives back the original table |
| `TableProperties.SetOverridesEarlierUpdate` | sql_uilts.py:102-107 | setting the count discards any earlier count update to the same row |
| `TableProperties.IdlePreference` | sql_uilts.py:52-56 | of two idle credentials, the one written later is returned |

## Left out

- Connection handling (`__init__`, `create_pool` and the pool settings) is left out. The async structure is left out too. Each method is one atomic step on the table.
- `create_database_and_table` is left out. Only its intent is modelled: cookies are unique. As written, the DDL lacks a comma before `UNIQUE`. The UNIQUE index also covers only the first 255 characters of a cookie. The model keys rows by the whole cookie.
- The `id AUTO_INCREMENT` column is not modelled. `QueryCookies` returns a set, so the order of `fetchall` rows is not modelled either.
- `get_non_working_cookie`, `get_cookies` and `delete_cookies` are left out. They query a `cookies` table and a `working` column that this file never creates. `get_non_working_cookie` also calls `random` without importing it.
- The mapping of the error to a FastAPI `HTTPException` with status 404 is left out. The model returns only the error value.
- Wall-clock time is not modelled. Timestamps are natural numbers from a non-decreasing clock passed in by the caller.
- `UpdateCount`: does not model the 32-bit range of the `INT` column. Unbounded integers stand in for it, so an overflow error of MySQL is not modelled.
- `Upsert`: a NULL `count` argument is not modelled. The count is always an integer.
- `UpdateCount`: a NULL `count_increment` argument is not modelled. It would write a NULL
  count, both as `SET count = NULL` and as `count + NULL`.
- The Python default arguments (`songID=None, songID2=None, count=0` of
  `insert_or_update_cookie`, `update=None` of `update_cookie_count`) are not Dafny default
  parameters. Callers pass `None`, `None`, `0` and `false` explicitly.
- `ClearSong`: a NULL job id argument is not modelled. It matches no row in SQL, and the model takes the id as a string.
- `GetCookieBySongId`: a NULL job id argument is not modelled either. With one, the lookup always falls back to `get_token`.
- Cookie and job id comparisons are exact string equality. MySQL collation rules, such as case and trailing-space insensitivity, are not modelled.
- The commented-out `main` is left out.
