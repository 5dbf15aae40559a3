/** The `suno2openai` credential table, as a map from cookie to row.

    The database's UNIQUE index on `cookie` makes the table a finite map keyed by the
    cookie. Every query and update of `DatabaseManager` is stated here as a function of
    the table: the read-only queries return a value, the updates return the new table.
 */
module CookieTable {

  datatype Option<T> = None | Some(value: T)

  /** One row: the two nullable job slots, the remaining quota, and the time of the last
      upsert or slot assignment. */
  datatype Row = Row(songID: Option<string>, songID2: Option<string>, count: int, time: nat)

  type Table = map<string, Row>

  /** The 404 "Token not found" raised when no credential is idle. */
  datatype Error = NotFound

  datatype Result<T> = Ok(value: T) | Err(error: Error)

  /** A row returned by `SELECT *`: its cookie together with its other columns. */
  datatype Record = Record(cookie: string, row: Row)

  /** Both job slots are NULL and quota remains. */
  predicate Idle(r: Row)
  {
    r.songID.None? && r.songID2.None? && r.count > 0
  }

  /** One of the two job slots equals `songid`. */
  predicate Holds(r: Row, songid: string)
  {
    r.songID == Some(songid) || r.songID2 == Some(songid)
  }

  /** `c` is an idle row whose time is not older than that of any other idle row. */
  predicate IsNewestIdle(t: Table, c: string)
  {
    && c in t
    && Idle(t[c])
    && forall k :: k in t && Idle(t[k]) ==> t[k].time <= t[c].time
  }

  /** No row's time lies after `now`. */
  predicate TimesAtMost(t: Table, now: nat)
  {
    forall c :: c in t ==> t[c].time <= now
  }

  /** Some cookie of `s` with the greatest time; among equal times any one of them. */
  ghost function NewestIn(t: Table, s: set<string>): (c: string)
    requires s != {} && s <= t.Keys
    ensures c in s
    ensures forall k :: k in s ==> t[k].time <= t[c].time
    decreases s
  {
    var k :| k in s;
    if s == {k} then k
    else
      var m := NewestIn(t, s - {k});
      if t[m].time < t[k].time then k else m
  }

  /** `get_token`: the cookie of an idle row with the latest time
      (`ORDER BY time DESC LIMIT 1`), or NotFound when no row is idle. */
  ghost function GetToken(t: Table): (r: Result<string>)
    ensures r.Ok? ==> IsNewestIdle(t, r.value)
    ensures r.Err? <==> forall c :: c in t ==> !Idle(t[c])
  {
    var idle := set c | c in t && Idle(t[c]);
    if idle == {} then
      assert forall c :: c in t ==> c !in idle;
      Err(NotFound)
    else
      Ok(NewestIn(t, idle))
  }

  /** `get_cookie_by_songid`: the cookie of some row holding `songid` in either slot;
      when none does, whatever `get_token` answers. */
  ghost function GetCookieBySongId(t: Table, songid: string): (r: Result<string>)
    ensures (exists c :: c in t && Holds(t[c], songid)) ==>
              r.Ok? && r.value in t && Holds(t[r.value], songid)
    ensures (forall c :: c in t ==> !Holds(t[c], songid)) ==> r == GetToken(t)
  {
    if exists c :: c in t && Holds(t[c], songid) then
      var c :| c in t && Holds(t[c], songid);
      Ok(c)
    else
      GetToken(t)
  }

  /** `query_cookies`: every row of the table, each with its cookie. */
  function QueryCookies(t: Table): (rows: set<Record>)
    ensures forall rec :: rec in rows <==> rec.cookie in t && t[rec.cookie] == rec.row
  {
    set c | c in t :: Record(c, t[c])
  }

  /** `insert_or_update_cookie`: a new row, or the existing row for `cookie` with its
      count and both slots overwritten and its time set to `now`. */
  function Upsert(t: Table, cookie: string, songID: Option<string>, songID2: Option<string>,
                  count: int, now: nat): (r: Table)
    ensures r.Keys == t.Keys + {cookie}
    ensures r[cookie].songID == songID && r[cookie].songID2 == songID2
    ensures r[cookie].count == count && r[cookie].time == now
    ensures forall c :: c in t && c != cookie ==> r[c] == t[c]
  {
    t[cookie := Row(songID, songID2, count, now)]
  }

  /** A row with both job slots set to NULL. */
  function Released(r: Row): Row
  {
    r.(songID := None, songID2 := None)
  }

  /** `delete_song_ids`: both slots of every row holding `songid` are set to NULL. */
  function ClearSong(t: Table, songid: string): (r: Table)
    ensures r.Keys == t.Keys
    ensures forall c :: c in t ==> !Holds(r[c], songid)
    ensures forall c :: c in t && Holds(t[c], songid) ==>
              r[c].songID.None? && r[c].songID2.None?
    ensures forall c :: c in t ==> r[c].count == t[c].count && r[c].time == t[c].time
    ensures forall c :: c in t && !Holds(t[c], songid) ==> r[c] == t[c]
  {
    map c | c in t :: if Holds(t[c], songid) then Released(t[c]) else t[c]
  }

  /** `update_cookie_count`: with `update` given the count becomes `countIncrement`,
      otherwise `countIncrement` is added to it; nothing happens for an unknown cookie. */
  function UpdateCount(t: Table, cookie: string, countIncrement: int, update: bool): (r: Table)
    ensures r.Keys == t.Keys
    ensures cookie in t && update ==> r[cookie].count == countIncrement
    ensures cookie in t && !update ==> r[cookie].count == t[cookie].count + countIncrement
    ensures cookie in t ==> r[cookie].(count := t[cookie].count) == t[cookie]
    ensures forall c :: c in t && c != cookie ==> r[c] == t[c]
  {
    if cookie !in t then t
    else
      var n := if update then countIncrement else t[cookie].count + countIncrement;
      t[cookie := t[cookie].(count := n)]
  }

  /** `decrement_cookie_count`: the count drops by one when the row exists and its
      count is positive; otherwise the table stays as it is. */
  function Decrement(t: Table, cookie: string): (r: Table)
    ensures r.Keys == t.Keys
    ensures cookie in t && t[cookie].count > 0 ==>
              r[cookie] == t[cookie].(count := t[cookie].count - 1)
    ensures !(cookie in t && t[cookie].count > 0) ==> r == t
    ensures forall c :: c in t && c != cookie ==> r[c] == t[c]
  {
    if cookie in t && t[cookie].count > 0 then
      t[cookie := t[cookie].(count := t[cookie].count - 1)]
    else
      t
  }

  /** `update_song_ids_by_cookie`: both slots of the row for `cookie` take the given
      values and its time becomes `now`; nothing happens for an unknown cookie. */
  function SetSongIds(t: Table, cookie: string, songID1: Option<string>, songID2: Option<string>,
                      now: nat): (r: Table)
    ensures r.Keys == t.Keys
    ensures cookie in t ==> r[cookie] == Row(songID1, songID2, t[cookie].count, now)
    ensures forall c :: c in t && c != cookie ==> r[c] == t[c]
  {
    if cookie in t then t[cookie := t[cookie].(songID := songID1, songID2 := songID2, time := now)]
    else t
  }
}
