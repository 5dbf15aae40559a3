/** `DatabaseManager`: the shared `suno2openai` table and the statements that update it.

    The table lives in the `table` field; `clock` is the latest value of
    CURRENT_TIMESTAMP seen by a write. Each method is one atomic statement. The read-only
    queries (`get_token`, `get_cookie_by_songid`, `query_cookies`) are the functions
    `GetToken`, `GetCookieBySongId` and `QueryCookies` of `CookieTable` applied to `table`.
 */
module SqlUtils {
  import opened CookieTable

  class DatabaseManager {
    var table: Table
    var clock: nat

    /** No row carries a timestamp later than the clock. */
    ghost predicate Valid()
      reads this
    {
      TimesAtMost(table, clock)
    }

    /** Attaches to an existing table whose timestamps are all at or before `now`. */
    constructor (rows: Table, now: nat)
      requires TimesAtMost(rows, now)
      ensures Valid()
      ensures table == rows && clock == now
    {
      table := rows;
      clock := now;
    }

    /** `insert_or_update_cookie`, run at time `now`. */
    method InsertOrUpdateCookie(cookie: string, songID: Option<string>, songID2: Option<string>,
                                count: int, now: nat)
      requires Valid() && clock <= now
      modifies this
      ensures Valid() && clock == now
      ensures table == Upsert(old(table), cookie, songID, songID2, count, now)
    {
      table := table[cookie := Row(songID, songID2, count, now)];
      clock := now;
    }

    /** `delete_song_ids`: visits every row and releases those holding `songid`. */
    method DeleteSongIds(songid: string)
      requires Valid()
      modifies this
      ensures Valid() && clock == old(clock)
      ensures table == ClearSong(old(table), songid)
    {
      var pending := table.Keys;
      var updated := table;
      while pending != {}
        invariant pending <= table.Keys
        invariant updated.Keys == table.Keys
        invariant forall c :: c in pending ==> updated[c] == table[c]
        invariant forall c :: c in table && c !in pending ==>
                    updated[c] == if Holds(table[c], songid) then Released(table[c]) else table[c]
        decreases pending
      {
        var c :| c in pending;
        if Holds(updated[c], songid) {
          updated := updated[c := Released(updated[c])];
        }
        pending := pending - {c};
      }
      table := updated;
    }

    /** `update_cookie_count`: `update` stands for the argument being given. */
    method UpdateCookieCount(cookie: string, countIncrement: int, update: bool)
      requires Valid()
      modifies this
      ensures Valid() && clock == old(clock)
      ensures table == UpdateCount(old(table), cookie, countIncrement, update)
    {
      if cookie in table {
        var row := table[cookie];
        if update {
          table := table[cookie := row.(count := countIncrement)];
        } else {
          table := table[cookie := row.(count := row.count + countIncrement)];
        }
      }
    }

    /** `decrement_cookie_count`. */
    method DecrementCookieCount(cookie: string)
      requires Valid()
      modifies this
      ensures Valid() && clock == old(clock)
      ensures table == Decrement(old(table), cookie)
    {
      if cookie in table && table[cookie].count > 0 {
        table := table[cookie := table[cookie].(count := table[cookie].count - 1)];
      }
    }

    /** `update_song_ids_by_cookie`, run at time `now`. */
    method UpdateSongIdsByCookie(cookie: string, songID1: Option<string>, songID2: Option<string>,
                                 now: nat)
      requires Valid() && clock <= now
      modifies this
      ensures Valid() && clock == now
      ensures table == SetSongIds(old(table), cookie, songID1, songID2, now)
    {
      if cookie in table {
        table := table[cookie := table[cookie].(songID := songID1, songID2 := songID2, time := now)];
      }
      clock := now;
    }
  }
}
