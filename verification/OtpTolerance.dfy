/**
  How far the clock may fall before the purge of old reservations shows. The
  reference is a limiter that keeps its whole history.
*/
module OtpTolerance {
  import opened Prelude
  import opened OtpSendQuota
  import opened OtpSendBudget
  import opened OtpSendRuns

  /** Every answer of the run is the one the whole history would give; a finish is not asked. */
  ghost predicate Unobservable(l: Limits, ops: seq<Op>)
    requires ValidLimits(l)
  {
    forall k: nat :: k < |ops| && !ops[k].Finish? ==> ReplyAt(l, ops, k, Some(RETENTION)) == ReplyAt(l, ops, k, None)
  }

  ghost predicate ToleranceHolds(l: Limits, t: int)
    requires ValidLimits(l)
  {
    forall ops :: FallsAtMost(ops, t) && DistinctIds(ops) ==> Unobservable(l, ops)
  }

  // --------------------------------------------------------- runs that fill

  /** As many different strings as there are numbers. */
  function Name(i: nat): string {
    seq(i, _ => 'r')
  }

  lemma RunSnoc(l: Limits, ops: seq<Op>, op: Op, retention: Option<int>)
    requires ValidLimits(l)
    ensures Run(l, ops + [op], retention) == Next(l, Run(l, ops, retention), op, retention).0
    ensures ReplyAt(l, ops + [op], |ops|, retention) == Next(l, Run(l, ops, retention), op, retention).1
  {
    assert (ops + [op])[..|ops|] == ops;
  }

  /** What the purge of a reserve at `now` leaves. */
  ghost function KeptAt(rows: seq<Row>, now: int, retention: Option<int>): seq<Row> {
    if retention.None? then rows else Purged(rows, now - retention.value)
  }

  /** The reservation `row` fits: its recipient has none in the last day, and there is room for all. */
  ghost predicate Fits(l: Limits, kept: seq<Row>, row: Row) {
    && Millis(row.reservedAt) == row.reservedAt && row.attemptedAt.None? && row.outcome.Reserved?
    && !HasId(kept, row.id)
    && Count(kept, Load(GlobalDay, row.recipient, row.reservedAt)) < l.globalDailyMax
    && (forall r :: r in kept && r.recipient == row.recipient ==> r.reservedAt <= row.reservedAt - DAY)
  }

  function ReserveOf(row: Row): Op {
    Reserve(row.recipient, row.reservedAt, row.id)
  }

  lemma FitIsOpen(l: Limits, kept: seq<Row>, row: Row)
    requires ValidLimits(l) && Fits(l, kept, row)
    ensures Verdict(l, kept, row.recipient, row.reservedAt).None?
  {
    forall d ensures !Blocked(l, kept, d, row.recipient, row.reservedAt) {
      if !d.GlobalDay? {
        SelectNone(kept, Load(d, row.recipient, row.reservedAt));
      }
    }
    DenialMeaning(l, kept, row.recipient, row.reservedAt, |DIMENSIONS|);
  }

  lemma FitIsReserved(l: Limits, s: State, row: Row, retention: Option<int>, kept: seq<Row>)
    requires ValidLimits(l) && kept == KeptAt(s.rows, row.reservedAt, retention) && Fits(l, kept, row)
    ensures Next(l, s, ReserveOf(row), retention) == (s.(rows := kept + [row]), Answer(Allowed(row.id)))
  {
    FitIsOpen(l, kept, row);
    ReserveOutcome(l, s.rows, ReserveOf(row), retention, kept);
  }

  /** A reservation that fits is granted. */
  lemma FitIsGranted(l: Limits, ops: seq<Op>, row: Row, retention: Option<int>, s: State, kept: seq<Row>)
    requires ValidLimits(l) && Run(l, ops, retention) == s
    requires kept == KeptAt(s.rows, row.reservedAt, retention) && Fits(l, kept, row)
    ensures Run(l, ops + [ReserveOf(row)], retention) == s.(rows := kept + [row])
    ensures ReplyAt(l, ops + [ReserveOf(row)], |ops|, retention) == Answer(Allowed(row.id))
  {
    FitIsReserved(l, s, row, retention, kept);
    RunSnoc(l, ops, ReserveOf(row), retention);
  }

  /** A reserve on a table whose last day is full is denied. */
  lemma FullIsDenied(l: Limits, ops: seq<Op>, row: Row, s: State)
    requires ValidLimits(l) && Run(l, ops, None) == s && Millis(row.reservedAt) == row.reservedAt
    requires Count(s.rows, Load(GlobalDay, row.recipient, row.reservedAt)) >= l.globalDailyMax
    ensures ReplyAt(l, ops + [ReserveOf(row)], |ops|, None).reservation.Denied?
  {
    RunSnoc(l, ops, ReserveOf(row), None);
    if Verdict(l, s.rows, row.recipient, row.reservedAt).None? {
      OpenWhenGranted(l, s.rows, row.recipient, row.reservedAt, GlobalDay);
    }
  }

  function RowOf(i: nat, at: int): Row {
    Row(Name(i), Name(i), at, None, Reserved)
  }

  function FillRows(n: nat, at: int): seq<Row> {
    seq(n, i requires 0 <= i < n => RowOf(i, at))
  }

  function FillOps(n: nat, at: int): seq<Op> {
    seq(n, i requires 0 <= i < n => ReserveOf(RowOf(i, at)))
  }

  /** The rows filled at one instant, as a later call with another name sees them. */
  lemma FillSeen(n: nat, at: int, m: nat, cutoff: int)
    requires n <= m
    ensures Select(FillRows(n, at), Probe(None, cutoff, None)) == if cutoff < at then FillRows(n, at) else []
    ensures !HasId(FillRows(n, at), Name(m)) && forall r :: r in FillRows(n, at) ==> r.recipient != Name(m)
  {
    forall r | r in FillRows(n, at) ensures r.id != Name(m) && r.recipient != Name(m) && r.reservedAt == at {
      var i :| 0 <= i < n && FillRows(n, at)[i] == r;
      assert |r.id| == i && |r.recipient| == i;
    }
    if cutoff < at {
      SelectAll(FillRows(n, at), Probe(None, cutoff, None));
    } else {
      SelectNone(FillRows(n, at), Probe(None, cutoff, None));
    }
  }

  lemma FillFits(l: Limits, n: nat, at: int)
    requires ValidLimits(l) && n < l.globalDailyMax && Millis(at) == at
    ensures Fits(l, FillRows(n, at), RowOf(n, at))
  {
    FillSeen(n, at, n, at - DAY);
  }

  lemma FillKept(n: nat, at: int, retention: Option<int>)
    requires retention.Some? ==> retention.value > 0
    ensures KeptAt(FillRows(n, at), at, retention) == FillRows(n, at)
  {
    if retention.Some? {
      FillSeen(n, at, n, at - retention.value);
    }
  }

  /** Up to the global limit, different recipients are all granted at one instant. */
  lemma {:induction false} FillTable(l: Limits, n: nat, at: int, retention: Option<int>)
    requires ValidLimits(l) && n <= l.globalDailyMax && Millis(at) == at
    requires retention.Some? ==> retention.value > 0
    ensures Run(l, FillOps(n, at), retention) == State(FillRows(n, at), [])
  {
    if n == 0 {
      assert FillOps(n, at) == [] && FillRows(n, at) == [];
    } else {
      FillTable(l, n - 1, at, retention);
      FillKept(n - 1, at, retention);
      FillFits(l, n - 1, at);
      FitIsGranted(l, FillOps(n - 1, at), RowOf(n - 1, at), retention, State(FillRows(n - 1, at), []),
                   FillRows(n - 1, at));
      FillGrows(n - 1, at);
    }
  }

  lemma FillGrows(n: nat, at: int)
    ensures FillOps(n + 1, at) == FillOps(n, at) + [ReserveOf(RowOf(n, at))]
    ensures FillRows(n + 1, at) == FillRows(n, at) + [RowOf(n, at)]
  {
  }

  /** Then another recipient, two days later. */
  function LaterOps(n: nat, at: int, later: int): seq<Op> {
    FillOps(n, at) + [ReserveOf(RowOf(n, later))]
  }

  ghost function LeftOver(n: nat, at: int, retention: Option<int>): seq<Row> {
    if retention.None? then FillRows(n, at) else []
  }

  ghost predicate TwoDays(at: int, later: int) {
    Millis(at) == at && Millis(later) == later && later == at + RETENTION
  }

  /** The later call finds its day empty; on the live table it purges all that was filled. */
  lemma LaterTable(l: Limits, n: nat, at: int, later: int, retention: Option<int>)
    requires ValidLimits(l) && n <= l.globalDailyMax && TwoDays(at, later)
    requires retention.Some? ==> retention.value == RETENTION
    ensures Run(l, LaterOps(n, at, later), retention) == State(LeftOver(n, at, retention) + [RowOf(n, later)], [])
  {
    var kept := LeftOver(n, at, retention);
    FillTable(l, n, at, retention);
    FillSeen(n, at, n, at);
    FillSeen(n, at, n, later - DAY);
    FitIsGranted(l, FillOps(n, at), RowOf(n, later), retention, State(FillRows(n, at), []), kept);
  }

  /** All of the table lies after an instant before the first reservations. */
  lemma LaterCount(n: nat, at: int, later: int, retention: Option<int>, cutoff: int)
    requires cutoff < at <= later
    ensures Count(LeftOver(n, at, retention) + [RowOf(n, later)], Probe(None, cutoff, None))
      == |LeftOver(n, at, retention)| + 1
  {
    FillSeen(n, at, n, cutoff);
    SelectAppend(LeftOver(n, at, retention), [RowOf(n, later)], Probe(None, cutoff, None));
    SelectAll([RowOf(n, later)], Probe(None, cutoff, None));
  }

  lemma LaterIds(n: nat, at: int, later: int, op: Op)
    requires op.Reserve? ==> op.id == Name(n + 1)
    ensures DistinctIds(LaterOps(n, at, later) + [op])
  {
    var ops := LaterOps(n, at, later) + [op];
    forall i, j | 0 <= i < j < |ops| && ops[i].Reserve? && ops[j].Reserve? ensures ops[i].id != ops[j].id {
      assert |ops[i].id| == i && |ops[j].id| == j;
    }
  }

  /** The clock of the last call is the only one that falls, from the later call. */
  lemma LaterFalls(n: nat, at: int, later: int, op: Op, t: int)
    requires TwoDays(at, later) && !op.Finish? && Reading(op) >= later - t && t >= 0
    ensures FallsAtMost(LaterOps(n, at, later) + [op], t)
  {
  }

  // ---------------------------------------------------------- the sharpness

  /** A microsecond beyond a day, the remaining budget of the purged table is not that of the history. */
  lemma RemainingShows(l: Limits, at: int, later: int, clock: int) returns (ops: seq<Op>)
    requires ValidLimits(l) && l.globalDailyMax >= 2 && TwoDays(at, later) && clock == later - DAY - 1
    ensures DistinctIds(ops) && FallsAtMost(ops, DAY + 1) && !Unobservable(l, ops)
  {
    var n := 1;
    var op := Remaining(clock);
    ops := LaterOps(n, at, later) + [op];
    LaterIds(n, at, later, op);
    LaterFalls(n, at, later, op, DAY + 1);
    RemainingReply(l, n, at, later, clock, None);
    RemainingReply(l, n, at, later, clock, Some(RETENTION));
    assert ops[n + 1] == op;
    assert ReplyAt(l, ops, n + 1, Some(RETENTION)) != ReplyAt(l, ops, n + 1, None);
  }

  lemma RemainingReply(l: Limits, n: nat, at: int, later: int, clock: int, retention: Option<int>)
    requires ValidLimits(l) && n < l.globalDailyMax && TwoDays(at, later) && clock == later - DAY - 1
    requires retention.Some? ==> retention.value == RETENTION
    ensures ReplyAt(l, LaterOps(n, at, later) + [Remaining(clock)], n + 1, retention)
         == Left(l.globalDailyMax - 1 - |LeftOver(n, at, retention)|)
  {
    LaterTable(l, n, at, later, retention);
    RunSnoc(l, LaterOps(n, at, later), Remaining(clock), retention);
    LaterCount(n, at, later, retention, clock - DAY);
  }

  /**
    The tolerance is exact: with room for two sends a day, the purge is invisible
    on every run whose clock falls by at most t if and only if t is at most a day.
  */
  lemma ToleranceIsADay(l: Limits, t: int)
    requires ValidLimits(l) && l.globalDailyMax >= 2
    ensures ToleranceHolds(l, t) <==> t <= DAY
  {
    if t <= DAY {
      forall ops: seq<Op> | FallsAtMost(ops, t) && DistinctIds(ops) ensures Unobservable(l, ops) {
        assert Tolerant(ops);
        forall k: nat | k < |ops| && !ops[k].Finish?
          ensures ReplyAt(l, ops, k, Some(RETENTION)) == ReplyAt(l, ops, k, None)
        {
          PurgeIsUnobservable(l, ops, k);
        }
      }
    } else {
      assert TwoDays(0, RETENTION);
      var at, later :| TwoDays(at, later);
      var ops := RemainingShows(l, at, later, later - DAY - 1);
      assert FallsAtMost(ops, t);
    }
  }

  /**
    And a millisecond beyond a day the limit itself is passed: after a full day of
    sends and one more two days later, a clock set back into that first day lets a
    send through that the history denies.
  */
  lemma LimitIsPassedBeyondTolerance(l: Limits, at: int) returns (ops: seq<Op>)
    requires ValidLimits(l) && l.globalDailyMax >= 2 && Millis(at) == at
    ensures |ops| == l.globalDailyMax + 2 && DistinctIds(ops) && FallsAtMost(ops, DAY + 1000)
    ensures ops[l.globalDailyMax + 1].Reserve?
    ensures ReplyAt(l, ops, l.globalDailyMax + 1, Some(RETENTION)).reservation.Allowed?
    ensures ReplyAt(l, ops, l.globalDailyMax + 1, None).reservation.Denied?
  {
    var n, later := l.globalDailyMax, at + RETENTION;
    var row := RowOf(n + 1, later - DAY - 1000);
    ops := LaterOps(n, at, later) + [ReserveOf(row)];
    LaterIds(n, at, later, ReserveOf(row));
    LaterFalls(n, at, later, ReserveOf(row), DAY + 1000);
    assert |Name(n)| != |Name(n + 1)|;
    LetThrough(l, n, at, later, row);
    HistoryDenies(l, n, at, later, row);
  }

  lemma LetThrough(l: Limits, n: nat, at: int, later: int, row: Row)
    requires ValidLimits(l) && n == l.globalDailyMax >= 2 && TwoDays(at, later)
    requires Millis(row.reservedAt) == row.reservedAt == later - DAY - 1000 && row == RowOf(n + 1, row.reservedAt)
    requires Name(n) != Name(n + 1)
    ensures ReplyAt(l, LaterOps(n, at, later) + [ReserveOf(row)], n + 1, Some(RETENTION)).reservation.Allowed?
  {
    var kept := [RowOf(n, later)];
    LaterTable(l, n, at, later, Some(RETENTION));
    assert LeftOver(n, at, Some(RETENTION)) + kept == kept;
    NewcomerFits(l, RowOf(n, later), row);
    FitIsGranted(l, LaterOps(n, at, later), row, Some(RETENTION), State(kept, []), kept);
  }

  /** One reservation of another recipient, at most two days before, is no obstacle. */
  lemma NewcomerFits(l: Limits, other: Row, row: Row)
    requires l.globalDailyMax >= 2 && other.id != row.id && other.recipient != row.recipient
    requires Millis(row.reservedAt) == row.reservedAt && row.attemptedAt.None? && row.outcome.Reserved?
    requires other.reservedAt > row.reservedAt - RETENTION
    ensures Fits(l, [other], row) && KeptAt([other], row.reservedAt, Some(RETENTION)) == [other]
  {
    SelectAll([other], Probe(None, row.reservedAt - RETENTION, None));
    SelectShrinks([other], Load(GlobalDay, row.recipient, row.reservedAt));
  }

  lemma HistoryDenies(l: Limits, n: nat, at: int, later: int, row: Row)
    requires ValidLimits(l) && n == l.globalDailyMax && TwoDays(at, later)
    requires Millis(row.reservedAt) == row.reservedAt == later - DAY - 1000
    ensures ReplyAt(l, LaterOps(n, at, later) + [ReserveOf(row)], n + 1, None).reservation.Denied?
  {
    assert |LaterOps(n, at, later)| == n + 1;
    LaterTable(l, n, at, later, None);
    LaterCount(n, at, later, None, row.reservedAt - DAY);
    FullIsDenied(l, LaterOps(n, at, later), row, State(FillRows(n, at) + [RowOf(n, later)], []));
  }
}
