/**
  The send budget with room for a single send a day. Whatever is reserved or
  denied, one row younger than a day is left, so set-back clocks meet a full
  window on the purged table too, with the same retry time and dimension.
*/
module OtpSingleSend {
  import opened Prelude
  import opened OtpSendQuota
  import opened OtpSendBudget
  import opened OtpSendRuns
  import opened OtpTolerance

  // -------------------------------------------------- one rule, two tables

  lemma EventsAreRows(rows: seq<Row>, d: Dimension, recipient: string, now: int)
    ensures forall e :: e in Events(rows, d, recipient, now) ==> e in rows
  {
    var all, mine := Probe(None, now - DAY, None), Probe(Some(recipient), now - DAY, None);
    SelectMembers(rows, all);
    SortMembers(Select(rows, all));
    SelectMembers(Recent(rows, now), mine);
    SelectMembers(Select(Recent(rows, now), mine), Probe(Some(recipient), now - HOUR, None));
  }

  /** The event whose ageing opens a blocked rule. */
  lemma ReleaseEvent(l: Limits, rows: seq<Row>, d: Dimension, recipient: string, now: int) returns (e: Row)
    requires ValidLimits(l) && Blocked(l, rows, d, recipient, now)
    ensures e in rows && ReleaseOf(l, rows, d, recipient, now) == e.reservedAt + WindowOf(d)
  {
    EventsFacts(rows, d, recipient, now, now - WindowOf(d));
    EventsAreRows(rows, d, recipient, now);
    var events := Events(rows, d, recipient, now);
    e := events[|events| - MaxOf(l, d)];
    assert e in events;
  }

  lemma {:induction false} SelectCountsLess(rows: seq<Row>, p: Probe, q: Probe)
    ensures Count(Select(rows, p), q) <= Count(rows, q)
  {
    if rows != [] {
      SelectCountsLess(rows[1..], p, q);
      var head := if Hits(rows[0], p) then [rows[0]] else [];
      SelectAppend(head, Select(rows[1..], p), q);
    }
  }

  lemma PurgedBlocksLess(l: Limits, full: seq<Row>, cutoff: int, d: Dimension, recipient: string, later: int)
    ensures Blocked(l, Purged(full, cutoff), d, recipient, later) ==> Blocked(l, full, d, recipient, later)
    ensures later - WindowOf(d) >= cutoff ==>
      (Blocked(l, Purged(full, cutoff), d, recipient, later) <==> Blocked(l, full, d, recipient, later))
  {
    SelectCountsLess(full, Probe(None, cutoff, None), Load(d, recipient, later));
    SelectSelect(full, Probe(None, cutoff, None), Load(d, recipient, later));
  }

  /** A rule blocked on the purged table is blocked on the full one, with the same release. */
  lemma PurgedRule(l: Limits, full: seq<Row>, cutoff: int, d: Dimension, recipient: string, now: int)
    requires ValidLimits(l) && Blocked(l, Purged(full, cutoff), d, recipient, now)
    ensures Blocked(l, full, d, recipient, now)
    ensures ReleaseOf(l, full, d, recipient, now) == ReleaseOf(l, Purged(full, cutoff), d, recipient, now)
  {
    var live := Purged(full, cutoff);
    PurgedBlocksLess(l, full, cutoff, d, recipient, now);
    var x, y := ReleaseOf(l, live, d, recipient, now), ReleaseOf(l, full, d, recipient, now);
    var e := ReleaseEvent(l, live, d, recipient, now);
    SelectMembers(full, Probe(None, cutoff, None));
    RuleReleases(l, live, d, recipient, now, now);
    RuleReleases(l, full, d, recipient, now, now);
    RuleReleases(l, live, d, recipient, now, x);
    RuleReleases(l, full, d, recipient, now, x);
    RuleReleases(l, live, d, recipient, now, y);
    RuleReleases(l, full, d, recipient, now, y);
    PurgedBlocksLess(l, full, cutoff, d, recipient, x);
    PurgedBlocksLess(l, full, cutoff, d, recipient, y);
  }

  /** A rule of the full table whose release event was not purged is blocked on the purged one. */
  lemma KeptRule(l: Limits, full: seq<Row>, cutoff: int, d: Dimension, recipient: string, now: int)
    requires ValidLimits(l) && Blocked(l, full, d, recipient, now)
    requires ReleaseOf(l, full, d, recipient, now) > cutoff + WindowOf(d)
    ensures Blocked(l, Purged(full, cutoff), d, recipient, now)
  {
    var last := ReleaseOf(l, full, d, recipient, now) - 1;
    RuleReleases(l, full, d, recipient, now, now);
    RuleReleases(l, full, d, recipient, now, last);
    PurgedBlocksLess(l, full, cutoff, d, recipient, last);
    if !Blocked(l, Purged(full, cutoff), d, recipient, now) {
      OpenStaysOpen(l, Purged(full, cutoff), d, recipient, now, last);
    }
  }

  lemma CountsMember(rows: seq<Row>, r: Row, p: Probe)
    requires r in rows && Hits(r, p)
    ensures Count(rows, p) >= 1
  {
    SelectMembers(rows, p);
    assert r in Select(rows, p);
  }

  /** With a single send a day, a row blocks the day for all until it is a day old. */
  lemma RowBlocksDay(l: Limits, rows: seq<Row>, r: Row, recipient: string, now: int)
    requires ValidLimits(l) && l.globalDailyMax == 1 && r in rows && now < r.reservedAt + DAY
    ensures Blocked(l, rows, GlobalDay, recipient, now)
    ensures ReleaseOf(l, rows, GlobalDay, recipient, now) >= r.reservedAt + DAY
  {
    CountsMember(rows, r, Load(GlobalDay, recipient, now));
    CountsMember(rows, r, Load(GlobalDay, recipient, r.reservedAt + DAY - 1));
    RuleReleases(l, rows, GlobalDay, recipient, now, r.reservedAt + DAY - 1);
  }

  /** No rule opens after the daily limit for all does. */
  lemma GlobalOpensLast(l: Limits, rows: seq<Row>, d: Dimension, recipient: string, now: int)
    requires ValidLimits(l) && l.globalDailyMax == 1 && Blocked(l, rows, d, recipient, now)
    ensures Blocked(l, rows, GlobalDay, recipient, now)
    ensures ReleaseOf(l, rows, d, recipient, now) <= ReleaseOf(l, rows, GlobalDay, recipient, now)
  {
    var e := ReleaseEvent(l, rows, d, recipient, now);
    RuleReleases(l, rows, d, recipient, now, now);
    RowBlocksDay(l, rows, e, recipient, now);
  }

  // ------------------------------------------------------------ the verdict

  /** No earlier blocked rule waits as long as the reported one. */
  ghost predicate ReportsFirst(l: Limits, rows: seq<Row>, recipient: string, now: int, n: nat, r: Option<Reservation>)
    requires ValidLimits(l) && n <= |DIMENSIONS| && (r.Some? ==> r.value.Denied?)
  {
    r.Some? ==> exists k :: FirstAt(l, rows, recipient, now, n, k, r.value)
  }

  ghost predicate FirstAt(l: Limits, rows: seq<Row>, recipient: string, now: int, n: nat, k: int, answer: Reservation)
    requires ValidLimits(l) && n <= |DIMENSIONS| && answer.Denied?
  {
    && 0 <= k < n && DIMENSIONS[k] == answer.dimension
    && forall j :: 0 <= j < k && Blocked(l, rows, DIMENSIONS[j], recipient, now) ==>
         Retry(l, rows, DIMENSIONS[j], recipient, now) < answer.retryAfterSeconds
  }

  lemma {:induction false} DenialReportsFirst(l: Limits, rows: seq<Row>, recipient: string, now: int, n: nat)
    requires ValidLimits(l) && n <= |DIMENSIONS|
    ensures ReportsFirst(l, rows, recipient, now, n, Denial(l, rows, recipient, now, n))
  {
    if n > 0 {
      DenialReportsFirst(l, rows, recipient, now, n - 1);
      DenialMeaning(l, rows, recipient, now, n - 1);
      ConsiderReportsFirst(l, rows, recipient, now, n - 1, DIMENSIONS[n - 1], Denial(l, rows, recipient, now, n - 1));
    }
  }

  lemma ConsiderReportsFirst(l: Limits, rows: seq<Row>, recipient: string, now: int, n: nat, d: Dimension,
                             best: Option<Reservation>)
    requires ValidLimits(l) && n < |DIMENSIONS| && d == DIMENSIONS[n] && Explains(l, rows, recipient, now, n, best)
    requires ReportsFirst(l, rows, recipient, now, n, best)
    ensures ReportsFirst(l, rows, recipient, now, n + 1, Consider(best, Events(rows, d, recipient, now), d, MaxOf(l, d),
                                                                  now))
  {
    EventsFacts(rows, d, recipient, now, now - WindowOf(d));
    var after := Consider(best, Events(rows, d, recipient, now), d, MaxOf(l, d), now);
    if after == best && best.Some? {
      var k :| FirstAt(l, rows, recipient, now, n, k, best.value);
      assert FirstAt(l, rows, recipient, now, n + 1, k, best.value);
    } else if after.Some? {
      RetryOfRule(l, rows, d, recipient, now);
      assert FirstAt(l, rows, recipient, now, n + 1, n, after.value);
    }
  }

  lemma RetryMonotone(x: int, y: int, now: int)
    requires x <= y
    ensures RetrySeconds(x, 0, now) <= RetrySeconds(y, 0, now)
    ensures y - x >= DAY && y - now >= DAY ==> RetrySeconds(x, 0, now) < RetrySeconds(y, 0, now)
  {
    CeilBounds(x - now);
    CeilBounds(y - now);
  }

  lemma RetryIsOfRelease(l: Limits, rows: seq<Row>, d: Dimension, recipient: string, now: int)
    requires ValidLimits(l) && Blocked(l, rows, d, recipient, now)
    ensures Retry(l, rows, d, recipient, now) == RetrySeconds(ReleaseOf(l, rows, d, recipient, now), 0, now)
  {
  }

  /** A set-back clock: some row is over a day younger than all that was purged, and a day ahead of the clock. */
  ghost predicate SetBack(full: seq<Row>, cutoff: int, now: int, r: Row) {
    r in full && r.reservedAt > cutoff + DAY && now < cutoff + DAY
  }

  /** The rules that wait as long as the day for all are the same on both tables, with the same wait. */
  lemma SameLongest(l: Limits, full: seq<Row>, cutoff: int, recipient: string, now: int, r: Row, d: Dimension)
    requires ValidLimits(l) && l.globalDailyMax == 1 && SetBack(full, cutoff, now, r)
    ensures Blocked(l, full, GlobalDay, recipient, now) && Blocked(l, Purged(full, cutoff), GlobalDay, recipient, now)
    ensures var live, most := Purged(full, cutoff), Retry(l, full, GlobalDay, recipient, now);
      && Retry(l, live, GlobalDay, recipient, now) == most
      && (Blocked(l, full, d, recipient, now) ==> Retry(l, full, d, recipient, now) <= most)
      && (Blocked(l, live, d, recipient, now) ==>
            Blocked(l, full, d, recipient, now)
              && Retry(l, live, d, recipient, now) == Retry(l, full, d, recipient, now))
      && (Blocked(l, full, d, recipient, now) && Retry(l, full, d, recipient, now) == most ==>
            Blocked(l, live, d, recipient, now))
  {
    var live := Purged(full, cutoff);
    SelectMembers(full, Probe(None, cutoff, None));
    RowBlocksDay(l, full, r, recipient, now);
    RowBlocksDay(l, live, r, recipient, now);
    PurgedRule(l, full, cutoff, GlobalDay, recipient, now);
    if Blocked(l, live, d, recipient, now) {
      PurgedRule(l, full, cutoff, d, recipient, now);
    }
    if Blocked(l, full, d, recipient, now) {
      LongestIsKept(l, full, cutoff, recipient, now, r, d);
    }
  }

  lemma LongestIsKept(l: Limits, full: seq<Row>, cutoff: int, recipient: string, now: int, r: Row, d: Dimension)
    requires ValidLimits(l) && l.globalDailyMax == 1
    requires SetBack(full, cutoff, now, r) && Blocked(l, full, d, recipient, now)
    ensures Blocked(l, full, GlobalDay, recipient, now)
    ensures Retry(l, full, d, recipient, now) <= Retry(l, full, GlobalDay, recipient, now)
    ensures Retry(l, full, d, recipient, now) == Retry(l, full, GlobalDay, recipient, now) ==>
      Blocked(l, Purged(full, cutoff), d, recipient, now)
  {
    RowBlocksDay(l, full, r, recipient, now);
    GlobalOpensLast(l, full, d, recipient, now);
    RetryIsOfRelease(l, full, d, recipient, now);
    RetryIsOfRelease(l, full, GlobalDay, recipient, now);
    var x, y := ReleaseOf(l, full, d, recipient, now), ReleaseOf(l, full, GlobalDay, recipient, now);
    RetryMonotone(x, y, now);
    if x > cutoff + WindowOf(d) {
      KeptRule(l, full, cutoff, d, recipient, now);
    }
  }

  /** With a single send a day a set-back clock is denied alike on both tables. */
  lemma SetBackVerdict(l: Limits, full: seq<Row>, cutoff: int, recipient: string, now: int, r: Row)
    requires ValidLimits(l) && l.globalDailyMax == 1 && SetBack(full, cutoff, now, r)
    ensures Verdict(l, full, recipient, now).Some?
    ensures Verdict(l, Purged(full, cutoff), recipient, now) == Verdict(l, full, recipient, now)
  {
    var live, n := Purged(full, cutoff), |DIMENSIONS|;
    DenialMeaning(l, full, recipient, now, n);
    DenialMeaning(l, live, recipient, now, n);
    DenialReportsFirst(l, full, recipient, now, n);
    DenialReportsFirst(l, live, recipient, now, n);
    SameLongest(l, full, cutoff, recipient, now, r, GlobalDay);
    if Verdict(l, full, recipient, now).None? {
      OpenWhenGranted(l, full, recipient, now, GlobalDay);
    }
    if Verdict(l, live, recipient, now).None? {
      OpenWhenGranted(l, live, recipient, now, GlobalDay);
    }
    SameAnswer(l, full, cutoff, recipient, now, r, Verdict(l, full, recipient, now).value,
               Verdict(l, live, recipient, now).value);
  }

  lemma SameAnswer(l: Limits, full: seq<Row>, cutoff: int, recipient: string, now: int, r: Row, a: Reservation,
                   b: Reservation)
    requires ValidLimits(l) && l.globalDailyMax == 1 && SetBack(full, cutoff, now, r)
    requires Explains(l, full, recipient, now, |DIMENSIONS|, Some(a))
    requires ReportsFirst(l, full, recipient, now, |DIMENSIONS|, Some(a))
    requires Explains(l, Purged(full, cutoff), recipient, now, |DIMENSIONS|, Some(b))
    requires ReportsFirst(l, Purged(full, cutoff), recipient, now, |DIMENSIONS|, Some(b))
    ensures a == b
  {
    var live := Purged(full, cutoff);
    var i :| FirstAt(l, full, recipient, now, |DIMENSIONS|, i, a);
    var j :| FirstAt(l, live, recipient, now, |DIMENSIONS|, j, b);
    SameLongest(l, full, cutoff, recipient, now, r, a.dimension);
    SameLongest(l, full, cutoff, recipient, now, r, b.dimension);
    var g :| 0 <= g < |DIMENSIONS| && DIMENSIONS[g] == GlobalDay;
    assert a.retryAfterSeconds == Retry(l, full, GlobalDay, recipient, now) == b.retryAfterSeconds;
    assert i == j;
  }

  // ------------------------------------------------------------------- runs

  const CLAIM_TOLERANCE: int := RETENTION - MINUTE

  /** Some row is younger than a day at the highest reservation instant. */
  ghost predicate Busy(rows: seq<Row>, high: Option<int>) {
    high.Some? ==> exists r :: r in rows && r.reservedAt > high.value - DAY
  }

  lemma DeniedIsBusy(l: Limits, rows: seq<Row>, recipient: string, now: int)
    requires ValidLimits(l) && Verdict(l, rows, recipient, now).Some?
    ensures exists r :: r in rows && r.reservedAt > now - DAY
  {
    DenialMeaning(l, rows, recipient, now, |DIMENSIONS|);
    var d := Verdict(l, rows, recipient, now).value.dimension;
    var e := ReleaseEvent(l, rows, d, recipient, now);
    RuleReleases(l, rows, d, recipient, now, now);
  }

  /** Granted or denied, a reserve leaves a row of its own last day. */
  lemma ReserveLeavesBusy(l: Limits, full: seq<Row>, high: Option<int>, op: Op)
    requires ValidLimits(l) && op.Reserve? && !HasId(full, op.id) && Busy(full, high)
    ensures Busy(ReserveStep(l, full, op.recipient, op.clock, op.id, None).0, Raised(high, Millis(op.clock)))
  {
    var now := Millis(op.clock);
    var after := ReserveStep(l, full, op.recipient, op.clock, op.id, None).0;
    ReserveOutcome(l, full, op, None, full);
    if high.Some? && high.value >= now {
      var r :| r in full && r.reservedAt > high.value - DAY;
      assert r in after;
    } else if Verdict(l, full, op.recipient, now).Some? {
      DeniedIsBusy(l, full, op.recipient, now);
    } else {
      assert after[|full|] in after;
    }
  }

  lemma DeniedReserve(l: Limits, rows: seq<Row>, op: Op, retention: Option<int>, kept: seq<Row>, answer: Reservation)
    requires ValidLimits(l) && op.Reserve?
    requires kept == if retention.None? then rows else Purged(rows, Millis(op.clock) - retention.value)
    requires Verdict(l, kept, op.recipient, Millis(op.clock)) == Some(answer)
    ensures ReserveStep(l, rows, op.recipient, op.clock, op.id, retention) == (kept, answer)
  {
  }

  /** On a purged table that denies it, a reserve whose own cutoff is older changes nothing. */
  lemma DeniedOnPurged(l: Limits, full: seq<Row>, cutoff: int, op: Op, answer: Reservation)
    requires ValidLimits(l) && op.Reserve? && Millis(op.clock) - RETENTION <= cutoff
    requires Verdict(l, Purged(full, cutoff), op.recipient, Millis(op.clock)) == Some(answer)
    ensures ReserveStep(l, Purged(full, cutoff), op.recipient, op.clock, op.id, Some(RETENTION))
         == (Purged(full, cutoff), answer)
  {
    PurgeTwice(full, cutoff, Millis(op.clock) - RETENTION);
    DeniedReserve(l, Purged(full, cutoff), op, Some(RETENTION), Purged(full, cutoff), answer);
  }

  /** A clock set back by more than a day meets one and the same denial on both tables. */
  lemma SetBackDenied(l: Limits, full: seq<Row>, high: int, recipient: string, now: int) returns (answer: Reservation)
    requires ValidLimits(l) && l.globalDailyMax == 1 && Busy(full, Some(high)) && now < high - DAY
    ensures Verdict(l, full, recipient, now) == Some(answer)
    ensures Verdict(l, Purged(full, high - RETENTION), recipient, now) == Some(answer)
  {
    var r :| r in full && r.reservedAt > high - DAY;
    SetBackVerdict(l, full, high - RETENTION, recipient, now, r);
    answer := Verdict(l, full, recipient, now).value;
  }

  lemma RemainingAlike(l: Limits, full: seq<Row>, high: int, clock: int)
    requires ValidLimits(l) && l.globalDailyMax == 1 && Busy(full, Some(high))
    ensures RemainingOf(l, Kept(full, Some(high)), clock) == RemainingOf(l, full, clock)
  {
    var p := Probe(None, clock - DAY, None);
    if clock < high {
      var r :| r in full && r.reservedAt > high - DAY;
      SelectMembers(full, Probe(None, high - RETENTION, None));
      CountsMember(full, r, p);
      CountsMember(Kept(full, Some(high)), r, p);
    } else {
      SelectSelect(full, Probe(None, high - RETENTION, None), p);
    }
  }

  ghost function RaisedBy(high: Option<int>, op: Op): Option<int> {
    if op.Reserve? then Raised(high, Millis(op.clock)) else high
  }

  lemma ReserveAlike(l: Limits, full: seq<Row>, high: Option<int>, op: Op)
    requires ValidLimits(l) && l.globalDailyMax == 1 && Busy(full, high) && op.Reserve? && !HasId(full, op.id)
    ensures ReserveStep(l, Kept(full, high), op.recipient, op.clock, op.id, Some(RETENTION)).1
         == ReserveStep(l, full, op.recipient, op.clock, op.id, None).1
    ensures ReserveStep(l, Kept(full, high), op.recipient, op.clock, op.id, Some(RETENTION)).0
         == Kept(ReserveStep(l, full, op.recipient, op.clock, op.id, None).0, Raised(high, Millis(op.clock)))
  {
    if high.Some? && Millis(op.clock) < high.value - DAY {
      var answer := SetBackDenied(l, full, high.value, op.recipient, Millis(op.clock));
      DeniedOnPurged(l, full, high.value - RETENTION, op, answer);
      DeniedReserve(l, full, op, None, full, answer);
    } else {
      ReserveSimulates(l, full, high, op);
    }
  }

  lemma StepAlike(l: Limits, live: State, full: State, high: Option<int>, op: Op)
    requires ValidLimits(l) && l.globalDailyMax == 1 && Simulates(live, full, high) && Busy(full.rows, high)
    requires op.Claim? && high.Some? ==> op.clock >= high.value - CLAIM_TOLERANCE
    requires op.Reserve? ==> !HasId(full.rows, op.id)
    ensures Simulates(Next(l, live, op, Some(RETENTION)).0, Next(l, full, op, None).0, RaisedBy(high, op))
    ensures !op.Finish? ==> Next(l, live, op, Some(RETENTION)).1 == Next(l, full, op, None).1
  {
    match op
    case Reserve(_, _, _) => ReserveAlike(l, full.rows, high, op);
    case Claim(id, clock) =>
      if high.Some? {
        ClaimCommutes(full.rows, id, clock, high.value - RETENTION);
      }
    case Finish(id, outcome) =>
      if high.Some? {
        FinishCommutes(full.rows, id, outcome, high.value - RETENTION);
      }
    case Remaining(clock) =>
      if high.Some? {
        RemainingAlike(l, full.rows, high.value, clock);
      }
  }

  lemma StepStaysBusy(l: Limits, full: State, high: Option<int>, op: Op)
    requires ValidLimits(l) && Busy(full.rows, high) && (op.Reserve? ==> !HasId(full.rows, op.id))
    ensures Busy(Next(l, full, op, None).0.rows, RaisedBy(high, op))
  {
    if op.Reserve? {
      ReserveLeavesBusy(l, full.rows, high, op);
    } else if high.Some? {
      var after := Next(l, full, op, None).0.rows;
      var i :| 0 <= i < |full.rows| && full.rows[i].reservedAt > high.value - DAY;
      assert after[i] in after && after[i].reservedAt == full.rows[i].reservedAt;
    }
  }

  lemma {:induction false} RunAlike(l: Limits, ops: seq<Op>)
    requires ValidLimits(l) && l.globalDailyMax == 1 && FallsAtMost(ops, CLAIM_TOLERANCE) && DistinctIds(ops)
    ensures Simulates(Run(l, ops, Some(RETENTION)), Run(l, ops, None), High(ops))
    ensures Busy(Run(l, ops, None).rows, High(ops))
    ensures ops != [] && !ops[|ops| - 1].Finish? ==>
      ReplyAt(l, ops, |ops| - 1, Some(RETENTION)) == ReplyAt(l, ops, |ops| - 1, None)
  {
    if ops != [] {
      var k := |ops| - 1;
      RunAlike(l, ops[..k]);
      IdsIssued(l, ops[..k]);
      if High(ops[..k]).Some? && ops[k].Claim? {
        HighBelow(ops[..k], Reading(ops[k]), CLAIM_TOLERANCE);
      }
      StepAlike(l, Run(l, ops[..k], Some(RETENTION)), Run(l, ops[..k], None), High(ops[..k]), ops[k]);
      StepStaysBusy(l, Run(l, ops[..k], None), High(ops[..k]), ops[k]);
    }
  }

  // ---------------------------------------------------- the exact tolerance

  /** Two days less a minute back, the history would still claim a reservation that was purged. */
  lemma ClaimShows(l: Limits, at: int) returns (ops: seq<Op>)
    requires ValidLimits(l) && Millis(at) == at
    ensures DistinctIds(ops) && FallsAtMost(ops, CLAIM_TOLERANCE + 1) && !Unobservable(l, ops)
  {
    var n, later := 1, at + RETENTION;
    var op := Claim(Name(0), at + MINUTE - 1);
    ops := LaterOps(n, at, later) + [op];
    LaterIds(n, at, later, op);
    LaterFalls(n, at, later, op, CLAIM_TOLERANCE + 1);
    ClaimReply(l, at, later, op, None);
    ClaimReply(l, at, later, op, Some(RETENTION));
    assert ops[n + 1] == op;
    assert ReplyAt(l, ops, n + 1, Some(RETENTION)) != ReplyAt(l, ops, n + 1, None);
  }

  lemma ClaimReply(l: Limits, at: int, later: int, op: Op, retention: Option<int>)
    requires ValidLimits(l) && TwoDays(at, later) && op == Claim(Name(0), at + MINUTE - 1)
    requires retention.Some? ==> retention.value == RETENTION
    ensures ReplyAt(l, LaterOps(1, at, later) + [op], 2, retention) == Claimed(retention.None?)
  {
    LaterTable(l, 1, at, later, retention);
    RunSnoc(l, LaterOps(1, at, later), op, retention);
    assert |LaterOps(1, at, later)| == 2 && |Name(0)| != |Name(1)|;
    ClaimCons(RowOf(1, later), [], op.id, op.clock);
    assert [RowOf(1, later)] + [] == [RowOf(1, later)];
    if retention.None? {
      ClaimCons(RowOf(0, at), [RowOf(1, later)], op.id, op.clock);
      assert LeftOver(1, at, retention) == [RowOf(0, at)];
    } else {
      assert LeftOver(1, at, retention) + [RowOf(1, later)] == [RowOf(1, later)];
    }
  }

  /** How far the clock may fall: a day, or two days less a minute if only one send a day is allowed. */
  function ToleranceOf(l: Limits): int {
    if l.globalDailyMax == 1 then CLAIM_TOLERANCE else DAY
  }

  /**
    The purge is invisible on every run whose clock falls by at most t if and only
    if t is at most the tolerance of the limits. For all valid limits and every t.
  */
  lemma PurgeToleranceIsExact(l: Limits, t: int)
    requires ValidLimits(l)
    ensures ToleranceHolds(l, t) <==> t <= ToleranceOf(l)
  {
    if l.globalDailyMax >= 2 {
      ToleranceIsADay(l, t);
    } else if t <= CLAIM_TOLERANCE {
      forall ops: seq<Op> | FallsAtMost(ops, t) && DistinctIds(ops) ensures Unobservable(l, ops) {
        forall k: nat | k < |ops| && !ops[k].Finish?
          ensures ReplyAt(l, ops, k, Some(RETENTION)) == ReplyAt(l, ops, k, None)
        {
          var prefix := ops[..k + 1];
          assert prefix[..k] == ops[..k];
          RunAlike(l, prefix);
        }
      }
    } else {
      var at :| Millis(at) == at;
      var ops := ClaimShows(l, at);
      assert FallsAtMost(ops, t);
    }
  }
}
