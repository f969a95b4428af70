/**
  What console handoffs and account logins have in common: a return path within
  the site, a row that expires or is consumed, and a purge of old rows. Instants
  are milliseconds.
*/
module BrowserTransactions {
  import opened Prelude

  const MINUTE: int := 60_000
  const DAY: int := 24 * 60 * MINUTE
  const PURGE_LIMIT := 100

  datatype Lifetime = Lifetime(createdAt: int, expiresAt: int, consumedAt: Option<int>)

  predicate ValidReturnPath(path: string) {
    |path| <= 2048 && "/" <= path && !("//" <= path) && '\\' !in path && '#' !in path
  }

  predicate Purgeable(l: Lifetime, now: int) {
    l.expiresAt < now - DAY || (l.consumedAt.Some? && l.consumedAt.value < now - DAY)
  }

  /** `doomed` is what one purge may delete: the oldest purgeable rows, at most a hundred of them. */
  ghost predicate PurgeAllowed<K, V>(rows: map<K, V>, life: V -> Lifetime, doomed: set<K>, now: int) {
    && (forall k :: k in doomed ==> k in rows && Purgeable(life(rows[k]), now))
    && |doomed| <= PURGE_LIMIT
    && (forall k :: k in rows && Purgeable(life(rows[k]), now) && k !in doomed ==>
          |doomed| == PURGE_LIMIT && forall d :: d in doomed ==> life(rows[d]).createdAt <= life(rows[k]).createdAt)
  }

  /** A path within the site: it starts with one slash, has no backslash and no fragment, and is not too long. */
  lemma PathMeaning(path: string)
    ensures ValidReturnPath(path) <==>
      && 0 < |path| <= 2048 && path[0] == '/' && (|path| > 1 ==> path[1] != '/')
      && forall i :: 0 <= i < |path| ==> path[i] != '\\' && path[i] != '#'
  {
    if |path| > 1 && path[0] == '/' && path[1] == '/' {
      assert path[..2] == "//";
    }
    if |path| > 0 && path[0] == '/' {
      assert path[..1] == "/";
    }
  }

  /** A purge deletes only rows that expired or were consumed over a day ago, a hundred at most, and all if no more. */
  lemma PurgeMeaning<K(!new), V>(rows: map<K, V>, life: V -> Lifetime, doomed: set<K>, now: int)
    requires PurgeAllowed(rows, life, doomed, now)
    ensures |doomed| <= 100
    ensures forall k :: k in doomed ==>
      k in rows && var l := life(rows[k]);
        now - l.expiresAt > 86_400_000 || (l.consumedAt.Some? && now - l.consumedAt.value > 86_400_000)
    ensures |doomed| < 100 ==> forall k :: k in rows ==>
      var l := life(rows[k]);
      (now - l.expiresAt > 86_400_000 || (l.consumedAt.Some? && now - l.consumedAt.value > 86_400_000)) ==> k in doomed
    ensures forall d, k :: d in doomed && k in rows && k !in doomed && Purgeable(life(rows[k]), now) ==>
      life(rows[d]).createdAt <= life(rows[k]).createdAt
  {
  }

  // -------------------------------------------------- what a purge may change

  /** How far clocks may fall before one meets a purged row alive: a day and a millisecond. */
  const PURGE_TOLERANCE: int := DAY + 1

  /** The clock of a call reads at most t less than that of any earlier call. */
  ghost predicate FallsAtMost(clocks: seq<int>, t: int) {
    forall i, j :: 0 <= i < j < |clocks| ==> clocks[j] >= clocks[i] - t
  }

  lemma FallsPrefix(clocks: seq<int>, now: int, t: int)
    requires FallsAtMost(clocks + [now], t)
    ensures FallsAtMost(clocks, t)
  {
    assert forall i :: 0 <= i < |clocks| ==> (clocks + [now])[i] == clocks[i];
  }

  /** A call finds the row consumed or expired. */
  predicate Closed(l: Lifetime, now: int) {
    l.consumedAt.Some? || l.expiresAt <= now
  }

  /** Some call so far could have purged the row, or it is consumed. */
  ghost predicate Dead(l: Lifetime, clocks: seq<int>) {
    l.consumedAt.Some? || exists i :: 0 <= i < |clocks| && l.expiresAt < clocks[i] - DAY
  }

  lemma DeadIsClosed(l: Lifetime, clocks: seq<int>, now: int)
    requires FallsAtMost(clocks + [now], PURGE_TOLERANCE) && Dead(l, clocks)
    ensures Closed(l, now) && Dead(l, clocks + [now])
  {
    if l.consumedAt.None? {
      var i :| 0 <= i < |clocks| && l.expiresAt < clocks[i] - DAY;
      assert (clocks + [now])[i] == clocks[i] && (clocks + [now])[|clocks|] == now;
    }
  }

  /** The purged table is the unpurged one without some rows that are closed. */
  ghost predicate LessClosed<K(!new), V>(purged: map<K, V>, full: map<K, V>, life: V -> Lifetime, now: int) {
    && (forall k :: k in purged ==> k in full && full[k] == purged[k])
    && (forall k :: k in full && k !in purged ==> Closed(life(full[k]), now))
  }

  /** The purged table is the unpurged one without some rows that are dead. */
  ghost predicate LessDead<K(!new), V>(purged: map<K, V>, full: map<K, V>, life: V -> Lifetime, clocks: seq<int>) {
    && (forall k :: k in purged ==> k in full && full[k] == purged[k])
    && (forall k :: k in full && k !in purged ==> Dead(life(full[k]), clocks))
  }

  /** A call leaves rows out of the purged table that were out of it before, or that it purged. */
  ghost predicate StaysLess<K(!new), V>(purged: map<K, V>, full: map<K, V>, purged': map<K, V>, full': map<K, V>,
                                        life: V -> Lifetime, now: int)
  {
    && (forall k :: k in purged' ==> k in full' && full'[k] == purged'[k])
    && (forall k :: k in full' && k !in purged' ==>
          && k in full && full'[k] == full[k]
          && (k in purged ==> Purgeable(life(full[k]), now)))
  }

  lemma LessDeadIsClosed<K(!new), V>(purged: map<K, V>, full: map<K, V>, life: V -> Lifetime, clocks: seq<int>,
                                     now: int)
    requires FallsAtMost(clocks + [now], PURGE_TOLERANCE) && LessDead(purged, full, life, clocks)
    ensures LessClosed(purged, full, life, now)
  {
    forall k | k in full && k !in purged ensures Closed(life(full[k]), now) {
      DeadIsClosed(life(full[k]), clocks, now);
    }
  }

  lemma LessStaysDead<K(!new), V>(purged: map<K, V>, full: map<K, V>, purged': map<K, V>, full': map<K, V>,
                                  life: V -> Lifetime, clocks: seq<int>, now: int)
    requires FallsAtMost(clocks + [now], PURGE_TOLERANCE) && LessDead(purged, full, life, clocks)
    requires StaysLess(purged, full, purged', full', life, now)
    ensures LessDead(purged', full', life, clocks + [now])
  {
    forall k | k in full' && k !in purged' ensures Dead(life(full'[k]), clocks + [now]) {
      if k in purged {
        assert (clocks + [now])[|clocks|] == now;
      } else {
        DeadIsClosed(life(full[k]), clocks, now);
      }
    }
  }

  /** A purge and then a new row, against the new row alone. */
  lemma InsertStaysLess<K(!new), V>(purged: map<K, V>, full: map<K, V>, life: V -> Lifetime, doomed: set<K>, k: K, v: V,
                                    now: int)
    requires LessClosed(purged, full, life, now) && PurgeAllowed(purged, life, doomed, now) && k !in full
    ensures StaysLess(purged, full, (purged - doomed)[k := v], full[k := v], life, now)
  {
    var less, more := (purged - doomed)[k := v], full[k := v];
    forall x | x in more && x !in less
      ensures x in full && more[x] == full[x] && (x in purged ==> Purgeable(life(full[x]), now))
    {
      assert x in purged ==> x in doomed;
    }
  }
}
