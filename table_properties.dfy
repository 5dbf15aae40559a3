/** Properties of the `suno2openai` table operations that relate several calls, or a
    call and a later query: allocation order, job affinity, release, and the quota paths.
 */
module TableProperties {
  import opened CookieTable

  // ---------------------------------------------------------------------------
  // Selection

  /** When one idle row is strictly newer than every other idle row, `get_token`
      has no choice left: it returns that row's cookie. */
  lemma GetTokenPicksStrictlyNewest(t: Table, c: string)
    requires c in t && Idle(t[c])
    requires forall k :: k in t && Idle(t[k]) && k != c ==> t[k].time < t[c].time
    ensures GetToken(t) == Ok(c)
  {
  }

  /** When exactly one row holds `songid`, `get_cookie_by_songid` returns that row's cookie. */
  lemma GetCookieBySongIdUniqueHolder(t: Table, songid: string, c: string)
    requires c in t && Holds(t[c], songid)
    requires forall k :: k in t && k != c ==> !Holds(t[k], songid)
    ensures GetCookieBySongId(t, songid) == Ok(c)
  {
  }

  /** `query_cookies` lists every row exactly once: as many records as rows. */
  lemma {:induction false} QueryCookiesSize(t: Table)
    ensures |QueryCookies(t)| == |t|
    decreases |t|
  {
    if t != map[] {
      var c :| c in t;
      var rest := t - {c};
      assert |rest| == |t| - 1 by { assert rest.Keys == t.Keys - {c}; }
      QueryCookiesSize(rest);
      var rec := Record(c, t[c]);
      assert rec !in QueryCookies(rest);
      assert QueryCookies(t) == QueryCookies(rest) + {rec};
    } else {
      assert QueryCookies(t) == {};
    }
  }

  // ---------------------------------------------------------------------------
  // Upsert

  /** The upsert never duplicates a cookie: the table grows by one row exactly when
      the cookie was new. */
  lemma UpsertRowCount(t: Table, cookie: string, songID: Option<string>, songID2: Option<string>,
                       count: int, now: nat)
    ensures |Upsert(t, cookie, songID, songID2, count, now)| == if cookie in t then |t| else |t| + 1
  {
  }

  /** Upserting with NULL slots and a positive count at the current time makes that
      cookie a newest idle row, so `get_token` is bound to succeed afterwards. */
  lemma UpsertedIdleIsNewest(t: Table, cookie: string, count: int, now: nat)
    requires TimesAtMost(t, now)
    requires count > 0
    ensures IsNewestIdle(Upsert(t, cookie, None, None, count, now), cookie)
    ensures GetToken(Upsert(t, cookie, None, None, count, now)).Ok?
    ensures TimesAtMost(Upsert(t, cookie, None, None, count, now), now)
  {
  }

  /** An upsert with NULL slots forgets the jobs the row held: no job id resolves to
      it any more, unlike the "merge" reading of an upsert. */
  lemma UpsertDropsJobs(t: Table, cookie: string, count: int, now: nat, songid: string)
    ensures !Holds(Upsert(t, cookie, None, None, count, now)[cookie], songid)
  {
  }

  // ---------------------------------------------------------------------------
  // Releasing job slots

  /** Deleting a job id twice leaves the table as deleting it once. */
  lemma ClearSongIdempotent(t: Table, songid: string)
    ensures ClearSong(ClearSong(t, songid), songid) == ClearSong(t, songid)
  {
  }

  /** After its job id is deleted, a poll for that job falls back to `get_token`. */
  lemma ClearedJobFallsBack(t: Table, songid: string)
    ensures GetCookieBySongId(ClearSong(t, songid), songid) == GetToken(ClearSong(t, songid))
  {
  }

  /** A row whose jobs are released and whose quota is positive becomes idle, so
      `get_token` succeeds afterwards. */
  lemma ReleasedRowIsIdle(t: Table, songid: string, c: string)
    requires c in t && Holds(t[c], songid) && t[c].count > 0
    ensures Idle(ClearSong(t, songid)[c])
    ensures GetToken(ClearSong(t, songid)).Ok?
  {
  }

  // ---------------------------------------------------------------------------
  // Binding job ids

  /** After the job ids are written into a row, a poll for either of them resolves to
      that row, provided no other row holds the same id. */
  lemma BoundJobResolves(t: Table, cookie: string, songID1: Option<string>,
                         songID2: Option<string>, now: nat, songid: string)
    requires cookie in t
    requires songID1 == Some(songid) || songID2 == Some(songid)
    requires forall k :: k in t && k != cookie ==> !Holds(t[k], songid)
    ensures GetCookieBySongId(SetSongIds(t, cookie, songID1, songID2, now), songid) == Ok(cookie)
  {
  }

  /** A row with a job written into a slot is not handed out by `get_token`. */
  lemma BoundRowNotAllocated(t: Table, cookie: string, songID1: Option<string>,
                             songID2: Option<string>, now: nat)
    requires songID1.Some? || songID2.Some?
    ensures GetToken(SetSongIds(t, cookie, songID1, songID2, now)) != Ok(cookie)
  {
  }

  /** Writing the job slots at the current time makes the row the most recently
      written one and keeps every time at or before `now`. */
  lemma SetSongIdsIsNewest(t: Table, cookie: string, songID1: Option<string>,
                           songID2: Option<string>, now: nat)
    requires TimesAtMost(t, now)
    requires cookie in t
    ensures TimesAtMost(SetSongIds(t, cookie, songID1, songID2, now), now)
    ensures forall k :: k in t ==>
              SetSongIds(t, cookie, songID1, songID2, now)[k].time
                <= SetSongIds(t, cookie, songID1, songID2, now)[cookie].time
  {
  }

  /** Binding and then releasing the same job gives back the row's count and leaves
      both slots empty. */
  lemma BindThenRelease(t: Table, cookie: string, songid: string, now: nat)
    requires cookie in t
    ensures var r := ClearSong(SetSongIds(t, cookie, Some(songid), None, now), songid);
            r.Keys == t.Keys && r[cookie].count == t[cookie].count &&
            r[cookie].songID.None? && r[cookie].songID2.None?
  {
  }

  // ---------------------------------------------------------------------------
  // Quota

  /** Applies `decrement_cookie_count` `n` times to the same cookie. */
  function DecrementTimes(t: Table, cookie: string, n: nat): Table
  {
    if n == 0 then t else Decrement(DecrementTimes(t, cookie, n - 1), cookie)
  }

  /** `decrement_cookie_count` never turns a non-negative count negative, on any row. */
  lemma DecrementKeepsNonNegative(t: Table, cookie: string)
    ensures forall c :: c in t && t[c].count >= 0 ==> Decrement(t, cookie)[c].count >= 0
  {
  }

  /** `n` decrements of a row with quota `q > 0` leave `max(0, q - n)`, a row with no
      positive quota keeps its count, and only the count of that row changes. */
  lemma {:induction false} DecrementTimesFloor(t: Table, cookie: string, n: nat)
    requires cookie in t
    ensures DecrementTimes(t, cookie, n).Keys == t.Keys
    ensures DecrementTimes(t, cookie, n)[cookie].count ==
              if t[cookie].count <= 0 then t[cookie].count
              else if t[cookie].count >= n then t[cookie].count - n
              else 0
    ensures DecrementTimes(t, cookie, n)[cookie].(count := t[cookie].count) == t[cookie]
    ensures forall c :: c in t && c != cookie ==> DecrementTimes(t, cookie, n)[c] == t[c]
  {
    if n > 0 {
      DecrementTimesFloor(t, cookie, n - 1);
      var prev := DecrementTimes(t, cookie, n - 1);
      assert DecrementTimes(t, cookie, n) == Decrement(prev, cookie);
    }
  }

  /** On a row with positive quota, `decrement_cookie_count` is the same update as
      adding -1 with `update_cookie_count`. */
  lemma DecrementIsAddMinusOne(t: Table, cookie: string)
    requires cookie in t && t[cookie].count > 0
    ensures Decrement(t, cookie) == UpdateCount(t, cookie, -1, false)
  {
  }

  /** Adding to the quota and then adding the negated amount restores the table. */
  lemma AddThenRefund(t: Table, cookie: string, amount: int)
    ensures UpdateCount(UpdateCount(t, cookie, amount, false), cookie, -amount, false) == t
  {
  }

  /** Setting the quota discards whatever count update came before it. */
  lemma SetOverridesEarlierUpdate(t: Table, cookie: string, first: int, update: bool, value: int)
    ensures UpdateCount(UpdateCount(t, cookie, first, update), cookie, value, true)
              == UpdateCount(t, cookie, value, true)
  {
  }

  // ---------------------------------------------------------------------------
  // A concrete case

  /** Two idle credentials: `get_token` picks the one written later. */
  lemma IdlePreference(older: nat, newer: nat)
    requires older < newer
    ensures GetToken(map["A" := Row(None, None, 1, older), "B" := Row(None, None, 3, newer)])
              == Ok("B")
  {
    var t := map["A" := Row(None, None, 1, older), "B" := Row(None, None, 3, newer)];
    GetTokenPicksStrictlyNewest(t, "B");
  }
}
