/**
  What the send budget guarantees over whole runs: the purge is unobservable,
  every placement of every window respects its limit, a denial's retry time is
  exact, and provider sends are bounded although only reservations are counted.
*/
module OtpSendBudget {
  import opened Prelude
  import opened OtpSendQuota

  // ------------------------------------------------------ query arithmetic

  /** The positions of the rows of that recipient, or of all, in that stretch of time. */
  ghost function Between(rows: seq<Row>, who: Option<string>, after: int, upTo: Option<int>): set<nat> {
    set i: nat | i < |rows| && (who == None || who == Some(rows[i].recipient)) && after < rows[i].reservedAt
                 && (upTo.None? || rows[i].reservedAt <= upTo.value)
  }

  ghost predicate Narrower(q: Probe, p: Probe) {
    forall r: Row :: Hits(r, q) ==> Hits(r, p)
  }

  lemma {:induction false} SelectMembers(rows: seq<Row>, p: Probe)
    ensures forall r :: r in Select(rows, p) <==> r in rows && Hits(r, p)
  {
    if rows != [] {
      SelectMembers(rows[1..], p);
    }
  }

  lemma {:induction false} SelectAppend(a: seq<Row>, b: seq<Row>, p: Probe)
    ensures Select(a + b, p) == Select(a, p) + Select(b, p)
  {
    if a == [] {
      assert a + b == b;
    } else {
      SelectAppend(a[1..], b, p);
      assert (a + b)[1..] == a[1..] + b;
      var head := if Hits(a[0], p) then [a[0]] else [];
      assert head + (Select(a[1..], p) + Select(b, p)) == (head + Select(a[1..], p)) + Select(b, p);
    }
  }

  lemma {:induction false} SelectSelect(rows: seq<Row>, p: Probe, q: Probe)
    ensures Narrower(q, p) ==> Select(Select(rows, p), q) == Select(rows, q)
    ensures Narrower(p, q) ==> Select(Select(rows, p), q) == Select(rows, p)
  {
    if rows != [] {
      SelectSelect(rows[1..], p, q);
      var head := if Hits(rows[0], p) then [rows[0]] else [];
      SelectAppend(head, Select(rows[1..], p), q);
    }
  }

  lemma BetweenSnoc(rows: seq<Row>, r: Row, who: Option<string>, after: int, upTo: Option<int>)
    ensures |Between(rows + [r], who, after, upTo)|
         == |Between(rows, who, after, upTo)| + (if Hits(r, Probe(who, after, upTo)) then 1 else 0)
  {
    var added: set<nat> := if Hits(r, Probe(who, after, upTo)) then {|rows|} else {};
    forall i: nat
      ensures i in Between(rows + [r], who, after, upTo) <==> i in Between(rows, who, after, upTo) || i in added
    {
      if i < |rows| {
        assert (rows + [r])[i] == rows[i];
      }
    }
    assert Between(rows + [r], who, after, upTo) == Between(rows, who, after, upTo) + added;
  }

  /** A count is the number of rows of that recipient, or of all, in that stretch of time. */
  lemma {:induction false} CountIsCardinality(rows: seq<Row>, who: Option<string>, after: int, upTo: Option<int>)
    ensures Count(rows, Probe(who, after, upTo)) == |Between(rows, who, after, upTo)|
  {
    if rows != [] {
      var k := |rows| - 1;
      CountIsCardinality(rows[..k], who, after, upTo);
      CountSnoc(rows[..k], rows[k], Probe(who, after, upTo));
      BetweenSnoc(rows[..k], rows[k], who, after, upTo);
      assert rows == rows[..k] + [rows[k]];
    }
  }

  lemma {:induction false} CountInsert(r: Row, rows: seq<Row>, p: Probe)
    ensures Count(Insert(r, rows), p) == Count([r] + rows, p)
  {
    if rows == [] || r.reservedAt <= rows[0].reservedAt {
    } else {
      CountInsert(r, rows[1..], p);
      SelectAppend([r], rows, p);
      SelectAppend([r], rows[1..], p);
      SelectAppend([rows[0]], Insert(r, rows[1..]), p);
    }
  }

  lemma {:induction false} CountSort(rows: seq<Row>, p: Probe)
    ensures Count(SortByTime(rows), p) == Count(rows, p)
  {
    if rows != [] {
      CountSort(rows[1..], p);
      CountInsert(rows[0], SortByTime(rows[1..]), p);
      SelectAppend([rows[0]], SortByTime(rows[1..]), p);
    }
  }

  ghost predicate Sorted(rows: seq<Row>) {
    forall i, j :: 0 <= i < j < |rows| ==> rows[i].reservedAt <= rows[j].reservedAt
  }

  lemma {:induction false} InsertSorted(r: Row, rows: seq<Row>)
    requires Sorted(rows)
    ensures Sorted(Insert(r, rows))
    ensures forall x :: x in Insert(r, rows) ==> x == r || x in rows
  {
    if rows == [] || r.reservedAt <= rows[0].reservedAt {
    } else {
      InsertSorted(r, rows[1..]);
      var rest := Insert(r, rows[1..]);
      assert forall i :: 0 <= i < |rest| ==> rest[i] in rest;
    }
  }

  lemma {:induction false} SortSorts(rows: seq<Row>)
    ensures Sorted(SortByTime(rows))
  {
    if rows != [] {
      SortSorts(rows[1..]);
      InsertSorted(rows[0], SortByTime(rows[1..]));
    }
  }

  lemma {:induction false} SelectSorted(rows: seq<Row>, p: Probe)
    requires Sorted(rows)
    ensures Sorted(Select(rows, p))
  {
    if rows != [] {
      SelectSorted(rows[1..], p);
      SelectMembers(rows[1..], p);
      var rest := Select(rows[1..], p);
      forall i | 0 <= i < |rest| ensures rows[0].reservedAt <= rest[i].reservedAt {
        assert rest[i] in rest;
        var k :| 0 <= k < |rows[1..]| && rows[1..][k] == rest[i];
        assert rows[k + 1] == rest[i];
      }
    }
  }

  /** In a sorted table, at least k rows lie after x exactly when the k-th row from the end does. */
  lemma {:induction false} SortedRank(rows: seq<Row>, who: Option<string>, x: int, k: nat)
    requires Sorted(rows) && 1 <= k <= |rows|
    requires forall r :: r in rows && who.Some? ==> r.recipient == who.value
    ensures Count(rows, Probe(who, x, None)) >= k <==> rows[|rows| - k].reservedAt > x
  {
    var p := Probe(who, x, None);
    assert rows[0] in rows;
    if rows[0].reservedAt > x {
      SelectAll(rows, p);
    } else if k == |rows| {
      SelectShrinks(rows[1..], p);
    } else {
      forall r | r in rows[1..] ensures r in rows {}
      SortedRank(rows[1..], who, x, k);
    }
  }

  lemma {:induction false} SelectAll(rows: seq<Row>, p: Probe)
    requires forall r :: r in rows ==> Hits(r, p)
    ensures Select(rows, p) == rows
  {
    if rows != [] {
      assert rows[0] in rows;
      SelectAll(rows[1..], p);
    }
  }

  lemma {:induction false} SelectNone(rows: seq<Row>, p: Probe)
    requires forall r :: r in rows ==> !Hits(r, p)
    ensures Select(rows, p) == []
  {
    if rows != [] {
      assert rows[0] in rows;
      SelectNone(rows[1..], p);
    }
  }

  lemma {:induction false} SelectShrinks(rows: seq<Row>, p: Probe)
    ensures |Select(rows, p)| <= |rows|
  {
    if rows != [] {
      SelectShrinks(rows[1..], p);
    }
  }

  // -------------------------------------------------- one rule, all instants

  lemma EventsAreOrdered(rows: seq<Row>, d: Dimension, recipient: string, now: int)
    ensures Sorted(Events(rows, d, recipient, now))
    ensures forall r :: r in Events(rows, d, recipient, now) && WhoOf(d, recipient).Some? ==> r.recipient == recipient
  {
    var window := Select(rows, Probe(None, now - DAY, None));
    var recent := Recent(rows, now);
    var mine := Probe(Some(recipient), now - DAY, None);
    SortSorts(window);
    SelectSorted(recent, mine);
    SelectSorted(Select(recent, mine), Probe(Some(recipient), now - HOUR, None));
    SelectMembers(recent, mine);
    SelectMembers(Select(recent, mine), Probe(Some(recipient), now - HOUR, None));
  }

  lemma EventsFacts(rows: seq<Row>, d: Dimension, recipient: string, now: int, x: int)
    requires x >= now - WindowOf(d)
    ensures Sorted(Events(rows, d, recipient, now))
    ensures forall r :: r in Events(rows, d, recipient, now) && WhoOf(d, recipient).Some? ==> r.recipient == recipient
    ensures Count(Events(rows, d, recipient, now), Probe(WhoOf(d, recipient), x, None))
         == Count(rows, Probe(WhoOf(d, recipient), x, None))
    ensures |Events(rows, d, recipient, now)| == Count(rows, Load(d, recipient, now))
  {
    EventsCount(rows, d, recipient, now, x);
    EventsCount(rows, d, recipient, now, now - WindowOf(d));
    EventsAreOrdered(rows, d, recipient, now);
    EventsAllCount(rows, d, recipient, now);
  }

  lemma EventsCount(rows: seq<Row>, d: Dimension, recipient: string, now: int, x: int)
    requires x >= now - WindowOf(d)
    ensures Count(Events(rows, d, recipient, now), Probe(WhoOf(d, recipient), x, None))
         == Count(rows, Probe(WhoOf(d, recipient), x, None))
  {
    var q := Probe(WhoOf(d, recipient), x, None);
    var all := Probe(None, now - DAY, None);
    var mine := Probe(Some(recipient), now - DAY, None);
    var recent := Recent(rows, now);
    CountSort(Select(rows, all), q);
    SelectSelect(rows, all, q);
    SelectSelect(recent, mine, q);
    SelectSelect(Select(recent, mine), Probe(Some(recipient), now - HOUR, None), q);
    assert Narrower(q, all);
  }

  lemma EventsAllCount(rows: seq<Row>, d: Dimension, recipient: string, now: int)
    ensures Select(Events(rows, d, recipient, now), Load(d, recipient, now)) == Events(rows, d, recipient, now)
  {
    var all := Probe(None, now - DAY, None);
    var mine := Probe(Some(recipient), now - DAY, None);
    var recent := Recent(rows, now);
    match d
    case RecipientHour => SelectSelect(Select(recent, mine), Load(d, recipient, now), Load(d, recipient, now));
    case RecipientDay => SelectSelect(recent, mine, mine);
    case GlobalDay =>
      SelectMembers(rows, all);
      SortMembers(Select(rows, all));
      SelectAll(recent, all);
  }

  lemma {:induction false} SortMembers(rows: seq<Row>)
    ensures forall r :: r in SortByTime(rows) ==> r in rows
  {
    if rows != [] {
      SortMembers(rows[1..]);
      SortSorts(rows[1..]);
      InsertSorted(rows[0], SortByTime(rows[1..]));
    }
  }

  ghost predicate Blocked(l: Limits, rows: seq<Row>, d: Dimension, recipient: string, now: int) {
    Count(rows, Load(d, recipient, now)) >= MaxOf(l, d)
  }

  /** The instant at which a blocked rule opens: the reading its retry time is computed from. */
  ghost function ReleaseOf(l: Limits, rows: seq<Row>, d: Dimension, recipient: string, now: int): int
    requires ValidLimits(l) && Blocked(l, rows, d, recipient, now)
  {
    EventsFacts(rows, d, recipient, now, now - WindowOf(d));
    var events := Events(rows, d, recipient, now);
    events[|events| - MaxOf(l, d)].reservedAt + WindowOf(d)
  }

  /** A blocked rule stays blocked before its release instant and is open from then on. */
  lemma RuleReleases(l: Limits, rows: seq<Row>, d: Dimension, recipient: string, now: int, later: int)
    requires ValidLimits(l) && Blocked(l, rows, d, recipient, now) && now <= later
    ensures Blocked(l, rows, d, recipient, later) <==> later < ReleaseOf(l, rows, d, recipient, now)
  {
    var x := later - WindowOf(d);
    EventsFacts(rows, d, recipient, now, x);
    SortedRank(Events(rows, d, recipient, now), WhoOf(d, recipient), x, MaxOf(l, d));
  }

  lemma OpenStaysOpen(l: Limits, rows: seq<Row>, d: Dimension, recipient: string, now: int, later: int)
    requires !Blocked(l, rows, d, recipient, now) && now <= later
    ensures !Blocked(l, rows, d, recipient, later)
  {
    CountMonotone(rows, Load(d, recipient, later), Load(d, recipient, now));
  }

  lemma {:induction false} CountMonotone(rows: seq<Row>, q: Probe, p: Probe)
    requires Narrower(q, p)
    ensures Count(rows, q) <= Count(rows, p)
  {
    if rows != [] {
      CountMonotone(rows[1..], q, p);
      assert Hits(rows[0], q) ==> Hits(rows[0], p);
    }
  }

  // -------------------------------------------------- all rules, retry time

  ghost function Retry(l: Limits, rows: seq<Row>, d: Dimension, recipient: string, now: int): int
    requires ValidLimits(l) && Blocked(l, rows, d, recipient, now)
  {
    RetrySeconds(ReleaseOf(l, rows, d, recipient, now) - WindowOf(d), WindowOf(d), now)
  }

  /** The dimension of one of the first n rules. */
  ghost predicate Among(d: Dimension, n: nat)
    requires n <= |DIMENSIONS|
  {
    exists k :: 0 <= k < n && DIMENSIONS[k] == d
  }

  /**
    `r` denies exactly when one of the first n rules is blocked, and then reports a blocked one with
    the longest wait.
  */
  ghost predicate Explains(l: Limits, rows: seq<Row>, recipient: string, now: int, n: nat, r: Option<Reservation>)
    requires ValidLimits(l) && n <= |DIMENSIONS|
  {
    match r
    case None => forall k :: 0 <= k < n ==> !Blocked(l, rows, DIMENSIONS[k], recipient, now)
    case Some(answer) =>
      && answer.Denied?
      && Among(answer.dimension, n)
      && Blocked(l, rows, answer.dimension, recipient, now)
      && answer.retryAfterSeconds == Retry(l, rows, answer.dimension, recipient, now)
      && forall k :: 0 <= k < n && Blocked(l, rows, DIMENSIONS[k], recipient, now) ==>
           Retry(l, rows, DIMENSIONS[k], recipient, now) <= answer.retryAfterSeconds
  }

  lemma ConsiderExplains(l: Limits, rows: seq<Row>, recipient: string, now: int, n: nat, d: Dimension,
                         best: Option<Reservation>)
    requires ValidLimits(l) && n < |DIMENSIONS| && d == DIMENSIONS[n] && Explains(l, rows, recipient, now, n, best)
    ensures Explains(l, rows, recipient, now, n + 1, Consider(best, Events(rows, d, recipient, now), d, MaxOf(l, d),
                                                              now))
  {
    EventsFacts(rows, d, recipient, now, now - WindowOf(d));
    var after := Consider(best, Events(rows, d, recipient, now), d, MaxOf(l, d), now);
    if Blocked(l, rows, d, recipient, now) {
      RetryOfRule(l, rows, d, recipient, now);
    }
    if after.Some? {
      var k :| 0 <= k <= n && DIMENSIONS[k] == after.value.dimension;
      assert Among(after.value.dimension, n + 1);
    }
  }

  /** A blocked rule's retry time is the one the loop computes from its events. */
  lemma RetryOfRule(l: Limits, rows: seq<Row>, d: Dimension, recipient: string, now: int)
    requires ValidLimits(l) && Blocked(l, rows, d, recipient, now)
    ensures var events := Events(rows, d, recipient, now);
      MaxOf(l, d) <= |events|
      && Retry(l, rows, d, recipient, now) == RetrySeconds(events[|events| - MaxOf(l, d)].reservedAt, WindowOf(d), now)
  {
    EventsFacts(rows, d, recipient, now, now - WindowOf(d));
  }

  lemma {:induction false} DenialMeaning(l: Limits, rows: seq<Row>, recipient: string, now: int, n: nat)
    requires ValidLimits(l) && n <= |DIMENSIONS|
    ensures Explains(l, rows, recipient, now, n, Denial(l, rows, recipient, now, n))
  {
    if n > 0 {
      DenialMeaning(l, rows, recipient, now, n - 1);
      ConsiderExplains(l, rows, recipient, now, n - 1, DIMENSIONS[n - 1], Denial(l, rows, recipient, now, n - 1));
    }
  }

  lemma OpenWhenGranted(l: Limits, rows: seq<Row>, recipient: string, now: int, d: Dimension)
    requires ValidLimits(l) && Verdict(l, rows, recipient, now).None?
    ensures !Blocked(l, rows, d, recipient, now)
  {
    DenialMeaning(l, rows, recipient, now, |DIMENSIONS|);
    var k := match d case RecipientHour => 0 case RecipientDay => 1 case GlobalDay => 2;
    assert DIMENSIONS[k] == d;
  }

  lemma {:induction false} DenialIgnoresPurge(l: Limits, rows: seq<Row>, cutoff: int, recipient: string, now: int,
                                              n: nat)
    requires ValidLimits(l) && n <= |DIMENSIONS| && cutoff <= now - DAY
    ensures Denial(l, Select(rows, Probe(None, cutoff, None)), recipient, now, n) == Denial(l, rows, recipient, now, n)
  {
    if n > 0 {
      DenialIgnoresPurge(l, rows, cutoff, recipient, now, n - 1);
      SelectSelect(rows, Probe(None, cutoff, None), Probe(None, now - DAY, None));
    }
  }

  ghost function Purged(rows: seq<Row>, cutoff: int): seq<Row> {
    Select(rows, Probe(None, cutoff, None))
  }

  lemma CeilBounds(a: int)
    ensures (CeilDiv(a, SECOND) - 1) * SECOND < a <= CeilDiv(a, SECOND) * SECOND
  {
  }

  /** Of a blocked rule and the blocked ones among the first n, one with the latest release. */
  lemma {:induction false} LatestUpTo(l: Limits, rows: seq<Row>, recipient: string, now: int, first: Dimension, n: nat)
    returns (latest: Dimension)
    requires ValidLimits(l) && n <= |DIMENSIONS| && Blocked(l, rows, first, recipient, now)
    ensures Blocked(l, rows, latest, recipient, now)
    ensures forall k :: 0 <= k < n && Blocked(l, rows, DIMENSIONS[k], recipient, now) ==>
      ReleaseOf(l, rows, DIMENSIONS[k], recipient, now) <= ReleaseOf(l, rows, latest, recipient, now)
  {
    if n == 0 {
      latest := first;
    } else {
      latest := LatestUpTo(l, rows, recipient, now, first, n - 1);
      var d := DIMENSIONS[n - 1];
      if Blocked(l, rows, d, recipient, now)
         && ReleaseOf(l, rows, d, recipient, now) > ReleaseOf(l, rows, latest, recipient, now) {
        latest := d;
      }
    }
  }

  lemma LatestRelease(l: Limits, rows: seq<Row>, recipient: string, now: int, answer: Reservation)
    returns (release: int)
    requires ValidLimits(l) && Explains(l, rows, recipient, now, |DIMENSIONS|, Some(answer))
    ensures exists d :: d in DIMENSIONS && Blocked(l, rows, d, recipient, now)
                     && release == ReleaseOf(l, rows, d, recipient, now)
    ensures forall d :: d in DIMENSIONS && Blocked(l, rows, d, recipient, now) ==>
                     ReleaseOf(l, rows, d, recipient, now) <= release
  {
    var latest := LatestUpTo(l, rows, recipient, now, answer.dimension, |DIMENSIONS|);
    release := ReleaseOf(l, rows, latest, recipient, now);
    IsListed(latest);
    forall d | d in DIMENSIONS && Blocked(l, rows, d, recipient, now)
      ensures ReleaseOf(l, rows, d, recipient, now) <= release
    {
      var k :| 0 <= k < |DIMENSIONS| && DIMENSIONS[k] == d;
    }
  }

  lemma IsListed(d: Dimension)
    ensures d in DIMENSIONS
  {
    var k := match d case RecipientHour => 0 case RecipientDay => 1 case GlobalDay => 2;
    assert DIMENSIONS[k] == d;
  }

  lemma DenialUntil(l: Limits, rows: seq<Row>, recipient: string, now: int, answer: Reservation, release: int,
                    later: int)
    requires ValidLimits(l) && Explains(l, rows, recipient, now, |DIMENSIONS|, Some(answer)) && now <= later
    requires exists d :: d in DIMENSIONS && Blocked(l, rows, d, recipient, now)
                      && release == ReleaseOf(l, rows, d, recipient, now)
    requires forall d :: d in DIMENSIONS && Blocked(l, rows, d, recipient, now) ==>
                      ReleaseOf(l, rows, d, recipient, now) <= release
    ensures Verdict(l, rows, recipient, later).Some? <==> later < release
  {
    DenialMeaning(l, rows, recipient, later, |DIMENSIONS|);
    forall d | d in DIMENSIONS
      ensures Blocked(l, rows, d, recipient, later)
         <==> Blocked(l, rows, d, recipient, now) && later < ReleaseOf(l, rows, d, recipient, now)
    {
      if Blocked(l, rows, d, recipient, now) {
        RuleReleases(l, rows, d, recipient, now, later);
      } else {
        OpenStaysOpen(l, rows, d, recipient, now, later);
      }
    }
    forall d: Dimension ensures d in DIMENSIONS {
      IsListed(d);
    }
  }

  lemma ReserveDenies(l: Limits, rows: seq<Row>, recipient: string, clock: int, id: string)
    requires ValidLimits(l)
    ensures ReserveStep(l, rows, recipient, clock, id, Some(RETENTION)).1.Denied?
       <==> Verdict(l, rows, recipient, Millis(clock)).Some?
  {
    DenialIgnoresPurge(l, rows, Millis(clock) - RETENTION, recipient, Millis(clock), |DIMENSIONS|);
  }

  /**
    A denial's retry time is exact, whatever rows are stored. If nothing else is
    reserved, every attempt before the release instant is denied again and every
    attempt from it on is not, however much other denied calls purge meanwhile.
    The release lies within the last second of the reported wait, for the denial
    as a whole and for the reported dimension alone.
  */
  lemma RetryIsExact(l: Limits, rows: seq<Row>, recipient: string, clock: int, id: string) returns (release: int)
    requires ValidLimits(l)
    requires ReserveStep(l, rows, recipient, clock, id, Some(RETENTION)).1.Denied?
    ensures var (left, answer) := ReserveStep(l, rows, recipient, clock, id, Some(RETENTION));
      var now, s := Millis(clock), answer.retryAfterSeconds;
      && 1 <= s
      && (s - 1) * SECOND < release - now <= s * SECOND
      && Blocked(l, left, answer.dimension, recipient, now)
      && (s - 1) * SECOND < ReleaseOf(l, left, answer.dimension, recipient, now) - now <= s * SECOND
      && forall later, id', cutoff :: now <= Millis(later) && cutoff <= Millis(later) - DAY ==>
           (ReserveStep(l, Purged(left, cutoff), recipient, later, id', Some(RETENTION)).1.Denied?
            <==> Millis(later) < release)
  {
    var (left, answer) := ReserveStep(l, rows, recipient, clock, id, Some(RETENTION));
    var now := Millis(clock);
    DenialMeaning(l, left, recipient, now, |DIMENSIONS|);
    release := LatestRelease(l, left, recipient, now, answer);
    WaitBounds(l, left, recipient, now, answer, release);
    forall later, id', cutoff | now <= Millis(later) && cutoff <= Millis(later) - DAY
      ensures ReserveStep(l, Purged(left, cutoff), recipient, later, id', Some(RETENTION)).1.Denied?
         <==> Millis(later) < release
    {
      ReserveDenies(l, Purged(left, cutoff), recipient, later, id');
      DenialIgnoresPurge(l, left, cutoff, recipient, Millis(later), |DIMENSIONS|);
      DenialUntil(l, left, recipient, now, answer, release, Millis(later));
    }
  }

  lemma WaitBounds(l: Limits, rows: seq<Row>, recipient: string, now: int, answer: Reservation, release: int)
    requires ValidLimits(l) && Explains(l, rows, recipient, now, |DIMENSIONS|, Some(answer))
    requires exists d :: d in DIMENSIONS && Blocked(l, rows, d, recipient, now)
                      && release == ReleaseOf(l, rows, d, recipient, now)
    requires forall d :: d in DIMENSIONS && Blocked(l, rows, d, recipient, now) ==>
                      ReleaseOf(l, rows, d, recipient, now) <= release
    ensures var s := answer.retryAfterSeconds;
      && 1 <= s
      && (s - 1) * SECOND < release - now <= s * SECOND
      && (s - 1) * SECOND < ReleaseOf(l, rows, answer.dimension, recipient, now) - now <= s * SECOND
  {
    var d :| d in DIMENSIONS && Blocked(l, rows, d, recipient, now) && release == ReleaseOf(l, rows, d, recipient, now);
    var own := ReleaseOf(l, rows, answer.dimension, recipient, now);
    IsListed(answer.dimension);
    RuleReleases(l, rows, d, recipient, now, now);
    RuleReleases(l, rows, answer.dimension, recipient, now, now);
    CeilBounds(release - now);
    CeilBounds(own - now);
    assert Retry(l, rows, d, recipient, now) <= answer.retryAfterSeconds;
  }

  // ------------------------------------------------- what a reserve decides

  /** More than `max - 1` stored reservations of the recipient, or of all, are less than `span` microseconds old. */
  ghost predicate Full(rows: seq<Row>, who: Option<string>, now: int, span: int, max: int) {
    |Between(rows, who, now - span, None)| >= max
  }

  lemma BlockedIsFull(l: Limits, rows: seq<Row>, recipient: string, now: int)
    ensures Blocked(l, rows, RecipientHour, recipient, now)
      <==> Full(rows, Some(recipient), now, 3_600_000_000, l.recipientHourlyMax)
    ensures Blocked(l, rows, RecipientDay, recipient, now)
      <==> Full(rows, Some(recipient), now, 86_400_000_000, l.recipientDailyMax)
    ensures Blocked(l, rows, GlobalDay, recipient, now) <==> Full(rows, None, now, 86_400_000_000, l.globalDailyMax)
  {
    CountIsCardinality(rows, Some(recipient), now - 3_600_000_000, None);
    CountIsCardinality(rows, Some(recipient), now - 86_400_000_000, None);
    CountIsCardinality(rows, None, now - 86_400_000_000, None);
  }

  lemma VerdictIsFull(l: Limits, rows: seq<Row>, recipient: string, now: int)
    requires ValidLimits(l)
    ensures Verdict(l, rows, recipient, now).Some? <==>
      || Full(rows, Some(recipient), now, 3_600_000_000, l.recipientHourlyMax)
      || Full(rows, Some(recipient), now, 86_400_000_000, l.recipientDailyMax)
      || Full(rows, None, now, 86_400_000_000, l.globalDailyMax)
  {
    DenialMeaning(l, rows, recipient, now, |DIMENSIONS|);
    BlockedIsFull(l, rows, recipient, now);
    IsListed(RecipientHour);
    IsListed(RecipientDay);
    IsListed(GlobalDay);
  }

  /** What a reserve leaves of the table, and what it adds. */
  lemma ReserveStores(l: Limits, rows: seq<Row>, recipient: string, clock: int, id: string)
    requires ValidLimits(l)
    ensures var now := clock - clock % 1000;
      var (after, answer) := ReserveStep(l, rows, recipient, clock, id, Some(RETENTION));
      && (answer.Unavailable? ==>
            after == rows && exists r :: r in rows && r.id == id && now - r.reservedAt < 172_800_000_000)
      && (answer.Denied? ==> forall r :: r in after <==> r in rows && now - r.reservedAt < 172_800_000_000)
      && (answer.Allowed? ==>
            && answer.id == id && after != [] && after[|after| - 1] == Row(id, recipient, now, None, Reserved)
            && (forall r :: r in after[..|after| - 1] <==> r in rows && now - r.reservedAt < 172_800_000_000)
            && (forall r :: r in after[..|after| - 1] ==> r.id != id))
  {
    var now := Millis(clock);
    var (after, answer) := ReserveStep(l, rows, recipient, clock, id, Some(RETENTION));
    var kept := Select(rows, Probe(None, now - RETENTION, None));
    SelectMembers(rows, Probe(None, now - RETENTION, None));
    if answer.Allowed? {
      assert after == kept + [Row(id, recipient, now, None, Reserved)] && after[..|kept|] == kept;
    }
  }

  /**
    A reserve is denied exactly when the recipient has used up an hour or a day or
    all recipients a day, counted over the stored rows up to the whole millisecond
    of the clock. `ReserveStores` says what becomes of the table.
  */
  lemma ReserveMeaning(l: Limits, rows: seq<Row>, recipient: string, clock: int, id: string)
    requires ValidLimits(l)
    ensures var now := clock - clock % 1000;
      ReserveStep(l, rows, recipient, clock, id, Some(RETENTION)).1.Denied? <==>
        || Full(rows, Some(recipient), now, 3_600_000_000, l.recipientHourlyMax)
        || Full(rows, Some(recipient), now, 86_400_000_000, l.recipientDailyMax)
        || Full(rows, None, now, 86_400_000_000, l.globalDailyMax)
  {
    VerdictIsFull(l, rows, recipient, Millis(clock));
    ReserveDenies(l, rows, recipient, clock, id);
  }
}
