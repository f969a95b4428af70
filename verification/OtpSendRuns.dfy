/**
  Whole runs of the send budget. Calls of any number of service instances appear
  in the order their transactions commit; each carries its own clock reading.
*/
module OtpSendRuns {
  import opened Prelude
  import opened OtpSendQuota
  import opened OtpSendBudget

  datatype Op =
    | Reserve(recipient: string, clock: int, id: string)
    | Claim(id: string, clock: int)
    | Finish(id: string, outcome: Outcome)
    | Remaining(clock: int)

  datatype Reply =
    | Answer(reservation: Reservation)
    | Claimed(ok: bool)
    | Finished(ok: bool)
    | Left(count: int)

  /** The table, and a log of the rows for which the provider was called. A send follows each successful claim. */
  datatype State = State(rows: seq<Row>, sends: seq<Row>)

  function FindClaimable(rows: seq<Row>, id: string, clock: int): Option<Row> {
    if rows == [] then None
    else if Claimable(rows[0], id, clock) then Some(rows[0])
    else FindClaimable(rows[1..], id, clock)
  }

  function FindFinishable(rows: seq<Row>, id: string): bool {
    exists r :: r in rows && Finishable(r, id)
  }

  function Attempted(r: Row, clock: int): Row {
    r.(attemptedAt := Some(AttemptTime(r, clock)))
  }

  function Next(l: Limits, s: State, op: Op, retention: Option<int>): (State, Reply)
    requires ValidLimits(l)
  {
    match op
    case Reserve(recipient, clock, id) =>
      var (rows, r) := ReserveStep(l, s.rows, recipient, clock, id, retention);
      (s.(rows := rows), Answer(r))
    case Claim(id, clock) =>
      var hit := FindClaimable(s.rows, id, clock);
      (State(ClaimRows(s.rows, id, clock), if hit.Some? then s.sends + [Attempted(hit.value, clock)] else s.sends),
       Claimed(hit.Some?))
    case Finish(id, outcome) =>
      (s.(rows := FinishRows(s.rows, id, outcome)), Finished(FindFinishable(s.rows, id)))
    case Remaining(clock) =>
      (s, Left(RemainingOf(l, s.rows, clock)))
  }

  /** The state after a run from an empty table. */
  function Run(l: Limits, ops: seq<Op>, retention: Option<int>): State
    requires ValidLimits(l)
  {
    if ops == [] then State([], [])
    else Next(l, Run(l, ops[..|ops| - 1], retention), ops[|ops| - 1], retention).0
  }

  /** What the k-th call of a run answers. */
  function ReplyAt(l: Limits, ops: seq<Op>, k: nat, retention: Option<int>): Reply
    requires ValidLimits(l) && k < |ops|
  {
    Next(l, Run(l, ops[..k], retention), ops[k], retention).1
  }

  /** The reservations the service has granted, as its callers saw them. */
  function Granted(l: Limits, ops: seq<Op>): seq<Row>
    requires ValidLimits(l)
  {
    if ops == [] then []
    else
      var k := |ops| - 1;
      var earlier := Granted(l, ops[..k]);
      if ops[k].Reserve? && ReplyAt(l, ops, k, Some(RETENTION)).reservation.Allowed?
      then earlier + [Row(ops[k].id, ops[k].recipient, Millis(ops[k].clock), None, Reserved)]
      else earlier
  }

  // ---------------------------------------------------------- run hypotheses

  function Reading(op: Op): int
    requires !op.Finish?
  {
    if op.Reserve? then Millis(op.clock) else op.clock
  }

  /** No clock reading falls more than `t` below an earlier reservation's. */
  ghost predicate FallsAtMost(ops: seq<Op>, t: int) {
    forall i, j :: 0 <= i < j < |ops| && ops[i].Reserve? && !ops[j].Finish? ==>
      Reading(ops[j]) >= Millis(ops[i].clock) - t
  }

  ghost predicate Tolerant(ops: seq<Op>) {
    FallsAtMost(ops, DAY)
  }

  /** Random reservation identifiers never repeat. */
  ghost predicate DistinctIds(ops: seq<Op>) {
    forall i, j :: 0 <= i < j < |ops| && ops[i].Reserve? && ops[j].Reserve? ==> ops[i].id != ops[j].id
  }

  ghost function Raised(high: Option<int>, now: int): (h: Option<int>)
    ensures h.Some?
  {
    if high.None? || now > high.value then Some(now) else high
  }

  /** The highest reservation instant of a run. */
  ghost function High(ops: seq<Op>): Option<int> {
    if ops == [] then None
    else
      var k := |ops| - 1;
      if ops[k].Reserve? then Raised(High(ops[..k]), Millis(ops[k].clock)) else High(ops[..k])
  }

  lemma {:induction false} HighBelow(ops: seq<Op>, bound: int, t: int)
    requires High(ops).Some?
    requires forall i :: 0 <= i < |ops| && ops[i].Reserve? ==> bound >= Millis(ops[i].clock) - t
    ensures High(ops).value - t <= bound
  {
    var k := |ops| - 1;
    if High(ops[..k]).Some? {
      HighBelow(ops[..k], bound, t);
    }
  }

  // ------------------------------------------------------ purge unobservable

  ghost function Kept(rows: seq<Row>, high: Option<int>): seq<Row> {
    if high.None? then rows else Purged(rows, high.value - RETENTION)
  }

  /** What the purging table keeps of the reference table. */
  ghost predicate Simulates(live: State, full: State, high: Option<int>) {
    live.rows == Kept(full.rows, high) && live.sends == full.sends
  }

  lemma {:induction false} PurgeTwice(rows: seq<Row>, a: int, b: int)
    ensures Purged(Purged(rows, a), b) == Purged(rows, if a < b then b else a)
  {
    SelectSelect(rows, Probe(None, a, None), Probe(None, b, None));
  }

  lemma PurgedCons(r: Row, rows: seq<Row>, cutoff: int)
    ensures Purged([r] + rows, cutoff) == (if r.reservedAt > cutoff then [r] else []) + Purged(rows, cutoff)
  {
    assert ([r] + rows)[1..] == rows;
  }

  lemma ClaimCons(r: Row, rows: seq<Row>, id: string, clock: int)
    ensures ClaimRows([r] + rows, id, clock)
         == [if Claimable(r, id, clock) then Attempted(r, clock) else r] + ClaimRows(rows, id, clock)
    ensures FindClaimable([r] + rows, id, clock)
         == if Claimable(r, id, clock) then Some(r) else FindClaimable(rows, id, clock)
  {
    assert ([r] + rows)[1..] == rows;
  }

  lemma FinishCons(r: Row, rows: seq<Row>, id: string, outcome: Outcome)
    ensures FinishRows([r] + rows, id, outcome)
         == [if Finishable(r, id) then r.(outcome := outcome) else r] + FinishRows(rows, id, outcome)
  {
  }

  lemma {:induction false} ClaimCommutes(rows: seq<Row>, id: string, clock: int, cutoff: int)
    requires cutoff <= clock - MINUTE
    ensures Purged(ClaimRows(rows, id, clock), cutoff) == ClaimRows(Purged(rows, cutoff), id, clock)
    ensures FindClaimable(Purged(rows, cutoff), id, clock) == FindClaimable(rows, id, clock)
  {
    if rows != [] {
      var r, rest := rows[0], rows[1..];
      assert rows == [r] + rest;
      ClaimCommutes(rest, id, clock, cutoff);
      ClaimCons(r, rest, id, clock);
      ClaimCons(r, Purged(rest, cutoff), id, clock);
      PurgedCons(r, rest, cutoff);
      PurgedCons(if Claimable(r, id, clock) then Attempted(r, clock) else r, ClaimRows(rest, id, clock), cutoff);
      assert [] + Purged(rest, cutoff) == Purged(rest, cutoff);
    }
  }

  lemma {:induction false} FinishCommutes(rows: seq<Row>, id: string, outcome: Outcome, cutoff: int)
    ensures Purged(FinishRows(rows, id, outcome), cutoff) == FinishRows(Purged(rows, cutoff), id, outcome)
  {
    if rows != [] {
      var r, rest := rows[0], rows[1..];
      assert rows == [r] + rest;
      FinishCommutes(rest, id, outcome, cutoff);
      FinishCons(r, rest, id, outcome);
      FinishCons(r, Purged(rest, cutoff), id, outcome);
      PurgedCons(r, rest, cutoff);
      PurgedCons(if Finishable(r, id) then r.(outcome := outcome) else r, FinishRows(rest, id, outcome), cutoff);
    }
  }

  /** `reserve` on a table whose purge leaves `kept`, with a fresh identifier. */
  lemma ReserveOutcome(l: Limits, rows: seq<Row>, op: Op, retention: Option<int>, kept: seq<Row>)
    requires ValidLimits(l) && op.Reserve? && !HasId(kept, op.id)
    requires kept == if retention.None? then rows else Purged(rows, Millis(op.clock) - retention.value)
    ensures var denied := Verdict(l, kept, op.recipient, Millis(op.clock));
      ReserveStep(l, rows, op.recipient, op.clock, op.id, retention)
        == if denied.Some? then (kept, denied.value)
           else (kept + [Row(op.id, op.recipient, Millis(op.clock), None, Reserved)], Allowed(op.id))
  {
  }

  lemma ReserveAgrees(l: Limits, live: seq<Row>, full: seq<Row>, op: Op, cutoff: int)
    requires ValidLimits(l) && op.Reserve? && !HasId(full, op.id)
    requires Purged(live, Millis(op.clock) - RETENTION) == Purged(full, cutoff)
    requires cutoff <= Millis(op.clock) - DAY
    ensures ReserveStep(l, live, op.recipient, op.clock, op.id, Some(RETENTION)).1
         == ReserveStep(l, full, op.recipient, op.clock, op.id, None).1
    ensures ReserveStep(l, live, op.recipient, op.clock, op.id, Some(RETENTION)).0
         == Purged(ReserveStep(l, full, op.recipient, op.clock, op.id, None).0, cutoff)
  {
    var row := Row(op.id, op.recipient, Millis(op.clock), None, Reserved);
    SelectMembers(full, Probe(None, cutoff, None));
    ReserveOutcome(l, live, op, Some(RETENTION), Purged(full, cutoff));
    ReserveOutcome(l, full, op, None, full);
    DenialIgnoresPurge(l, full, cutoff, op.recipient, Millis(op.clock), |DIMENSIONS|);
    SelectAppend(full, [row], Probe(None, cutoff, None));
    assert Select([row], Probe(None, cutoff, None)) == [row];
  }

  lemma ReserveSimulates(l: Limits, full: seq<Row>, high: Option<int>, op: Op)
    requires ValidLimits(l) && op.Reserve? && !HasId(full, op.id)
    requires high.Some? ==> Millis(op.clock) >= high.value - DAY
    ensures ReserveStep(l, Kept(full, high), op.recipient, op.clock, op.id, Some(RETENTION)).1
         == ReserveStep(l, full, op.recipient, op.clock, op.id, None).1
    ensures ReserveStep(l, Kept(full, high), op.recipient, op.clock, op.id, Some(RETENTION)).0
         == Kept(ReserveStep(l, full, op.recipient, op.clock, op.id, None).0, Raised(high, Millis(op.clock)))
  {
    if high.Some? {
      PurgeTwice(full, high.value - RETENTION, Millis(op.clock) - RETENTION);
    }
    ReserveAgrees(l, Kept(full, high), full, op, Raised(high, Millis(op.clock)).value - RETENTION);
  }

  lemma NextSimulates(l: Limits, live: State, full: State, high: Option<int>, op: Op)
    requires ValidLimits(l) && Simulates(live, full, high)
    requires high.Some? && !op.Finish? ==> Reading(op) >= high.value - DAY
    requires op.Reserve? ==> !HasId(full.rows, op.id)
    ensures Simulates(Next(l, live, op, Some(RETENTION)).0, Next(l, full, op, None).0,
                      if op.Reserve? then Raised(high, Millis(op.clock)) else high)
    ensures !op.Finish? ==> Next(l, live, op, Some(RETENTION)).1 == Next(l, full, op, None).1
  {
    match op
    case Reserve(_, _, _) => ReserveSimulates(l, full.rows, high, op);
    case Claim(id, clock) =>
      if high.Some? {
        ClaimCommutes(full.rows, id, clock, high.value - RETENTION);
      }
    case Finish(id, outcome) =>
      if high.Some? {
        FinishCommutes(full.rows, id, outcome, high.value - RETENTION);
      }
    case Remaining(clock) =>
      if high.Some? {
        SelectSelect(full.rows, Probe(None, high.value - RETENTION, None), Probe(None, clock - DAY, None));
      }
  }

  /** Every identifier in the reference table was issued by an earlier reserve. */
  lemma {:induction false} IdsIssued(l: Limits, ops: seq<Op>)
    requires ValidLimits(l)
    ensures forall r :: r in Run(l, ops, None).rows ==>
      exists i :: 0 <= i < |ops| && ops[i].Reserve? && ops[i].id == r.id
  {
    if ops != [] {
      var k := |ops| - 1;
      IdsIssued(l, ops[..k]);
      var before, after := Run(l, ops[..k], None).rows, Run(l, ops, None).rows;
      forall r | r in after ensures exists i :: 0 <= i < |ops| && ops[i].Reserve? && ops[i].id == r.id {
        if !(exists b :: b in before && b.id == r.id) {
          assert ops[k].Reserve? && ops[k].id == r.id;
        } else {
          var b :| b in before && b.id == r.id;
          var i :| 0 <= i < k && ops[..k][i].Reserve? && ops[..k][i].id == b.id;
          assert ops[i].id == r.id;
        }
      }
    }
  }

  lemma {:induction false} RunSimulates(l: Limits, ops: seq<Op>)
    requires ValidLimits(l) && Tolerant(ops) && DistinctIds(ops)
    ensures Simulates(Run(l, ops, Some(RETENTION)), Run(l, ops, None), High(ops))
    ensures ops != [] && !ops[|ops| - 1].Finish? ==>
      ReplyAt(l, ops, |ops| - 1, Some(RETENTION)) == ReplyAt(l, ops, |ops| - 1, None)
  {
    if ops != [] {
      var k := |ops| - 1;
      RunSimulates(l, ops[..k]);
      IdsIssued(l, ops[..k]);
      if High(ops[..k]).Some? && !ops[k].Finish? {
        HighBelow(ops[..k], Reading(ops[k]), DAY);
      }
      NextSimulates(l, Run(l, ops[..k], Some(RETENTION)), Run(l, ops[..k], None), High(ops[..k]), ops[k]);
    }
  }

  /**
    Purging is unobservable: on every run whose clocks keep the tolerance, each
    reserve, claim and remaining answers as it would on a table never purged.
  */
  lemma PurgeIsUnobservable(l: Limits, ops: seq<Op>, k: nat)
    requires ValidLimits(l) && Tolerant(ops) && DistinctIds(ops)
    requires k < |ops| && !ops[k].Finish?
    ensures ReplyAt(l, ops, k, Some(RETENTION)) == ReplyAt(l, ops, k, None)
  {
    var prefix := ops[..k + 1];
    assert prefix[..k] == ops[..k];
    RunSimulates(l, prefix);
  }

  /** The reservation is there to finish, and at most 48 hours behind the highest reservation instant. */
  ghost predicate StillFinishable(rows: seq<Row>, id: string, high: Option<int>) {
    exists r :: r in rows && Finishable(r, id) && (high.Some? ==> r.reservedAt > high.value - RETENTION)
  }

  /**
    Of a finish the purge changes the answer only for a reservation it deleted: exactly then it
    fails although the history has it.
  */
  lemma FinishFailsOnlyWhenPurged(l: Limits, ops: seq<Op>, k: nat)
    requires ValidLimits(l) && Tolerant(ops) && DistinctIds(ops)
    requires k < |ops| && ops[k].Finish?
    ensures ReplyAt(l, ops, k, Some(RETENTION))
      == Finished(StillFinishable(Run(l, ops[..k], None).rows, ops[k].id, High(ops[..k])))
    ensures ReplyAt(l, ops, k, None) == Finished(StillFinishable(Run(l, ops[..k], None).rows, ops[k].id, None))
  {
    RunSimulates(l, ops[..k]);
    var full, live := Run(l, ops[..k], None).rows, Run(l, ops[..k], Some(RETENTION)).rows;
    if High(ops[..k]).Some? {
      SelectMembers(full, Probe(None, High(ops[..k]).value - RETENTION, None));
    }
    assert forall r :: r in live <==>
      r in full && (High(ops[..k]).Some? ==> r.reservedAt > High(ops[..k]).value - RETENTION);
  }

  // -------------------------------------------------------- window bounds

  /** A window of a dimension that ends at instant t: (t - window, t]. */
  ghost function WindowAt(d: Dimension, recipient: string, t: int): Probe {
    Probe(WhoOf(d, recipient), t - WindowOf(d), Some(t))
  }

  ghost predicate WithinLimits(l: Limits, rows: seq<Row>) {
    forall d, recipient, t :: Count(rows, WindowAt(d, recipient, t)) <= MaxOf(l, d)
  }

  lemma {:induction false} UpdatesKeepCounts(rows: seq<Row>, updated: seq<Row>, p: Probe)
    requires |rows| == |updated|
    requires forall i :: 0 <= i < |rows| ==>
      updated[i].recipient == rows[i].recipient && updated[i].reservedAt == rows[i].reservedAt
    ensures Count(updated, p) == Count(rows, p)
  {
    if rows != [] {
      UpdatesKeepCounts(rows[1..], updated[1..], p);
    }
  }

  lemma GrantKeepsLimits(l: Limits, rows: seq<Row>, row: Row)
    requires ValidLimits(l) && WithinLimits(l, rows)
    requires Verdict(l, rows, row.recipient, row.reservedAt).None?
    ensures WithinLimits(l, rows + [row])
  {
    forall d, recipient, t ensures Count(rows + [row], WindowAt(d, recipient, t)) <= MaxOf(l, d) {
      var p := WindowAt(d, recipient, t);
      SelectAppend(rows, [row], p);
      if Hits(row, p) {
        assert WhoOf(d, recipient) == WhoOf(d, row.recipient);
        CountMonotone(rows, p, Load(d, row.recipient, row.reservedAt));
        OpenWhenGranted(l, rows, row.recipient, row.reservedAt, d);
      }
    }
  }

  lemma {:induction false} ReferenceWithinLimits(l: Limits, ops: seq<Op>)
    requires ValidLimits(l)
    ensures WithinLimits(l, Run(l, ops, None).rows)
  {
    if ops != [] {
      var k := |ops| - 1;
      ReferenceWithinLimits(l, ops[..k]);
      var before, after := Run(l, ops[..k], None).rows, Run(l, ops, None).rows;
      match ops[k]
      case Reserve(recipient, clock, id) =>
        if Verdict(l, before, recipient, Millis(clock)).None? {
          GrantKeepsLimits(l, before, Row(id, recipient, Millis(clock), None, Reserved));
        }
      case Claim(_, _) =>
        forall p ensures Count(after, p) == Count(before, p) { UpdatesKeepCounts(before, after, p); }
      case Finish(_, _) =>
        forall p ensures Count(after, p) == Count(before, p) { UpdatesKeepCounts(before, after, p); }
      case Remaining(_) =>
    }
  }

  /** The reference table holds exactly the granted reservations. */
  lemma {:induction false} GrantedIsReference(l: Limits, ops: seq<Op>, p: Probe)
    requires ValidLimits(l) && Tolerant(ops) && DistinctIds(ops)
    ensures Count(Granted(l, ops), p) == Count(Run(l, ops, None).rows, p)
  {
    if ops != [] {
      var k := |ops| - 1;
      GrantedIsReference(l, ops[..k], p);
      RunSimulates(l, ops);
      var before, after := Run(l, ops[..k], None).rows, Run(l, ops, None).rows;
      if ops[k].Reserve? {
        IdsIssued(l, ops[..k]);
        var row := Row(ops[k].id, ops[k].recipient, Millis(ops[k].clock), None, Reserved);
        ReserveOutcome(l, before, ops[k], None, before);
        SelectAppend(before, [row], p);
        SelectAppend(Granted(l, ops[..k]), [row], p);
      } else {
        UpdatesKeepCounts(before, after, p);
      }
    }
  }

  /**
    At every instant t, whether or not a call happens there, the reservations
    granted in the window ending at t respect the limit of each dimension.
  */
  lemma SlidingWindowBound(l: Limits, ops: seq<Op>, d: Dimension, recipient: string, t: int)
    requires ValidLimits(l) && Tolerant(ops) && DistinctIds(ops)
    ensures Count(Granted(l, ops), WindowAt(d, recipient, t)) <= MaxOf(l, d)
  {
    ReferenceWithinLimits(l, ops);
    GrantedIsReference(l, ops, WindowAt(d, recipient, t));
  }

  /** `remaining` reads zero exactly when the last 24 hours of grants have used up the global limit. */
  lemma RemainingIsExact(l: Limits, ops: seq<Op>, k: nat)
    requires ValidLimits(l) && Tolerant(ops) && DistinctIds(ops)
    requires k < |ops| && ops[k].Remaining?
    ensures var used := Count(Granted(l, ops[..k]), Probe(None, ops[k].clock - DAY, None));
      var left := ReplyAt(l, ops, k, Some(RETENTION)).count;
      && (left == 0 <==> used >= l.globalDailyMax)
      && (left > 0 ==> left + used == l.globalDailyMax)
  {
    PurgeIsUnobservable(l, ops, k);
    GrantedIsReference(l, ops[..k], Probe(None, ops[k].clock - DAY, None));
    RemainingReply(l, ops, k);
  }

  lemma RemainingReply(l: Limits, ops: seq<Op>, k: nat)
    requires ValidLimits(l) && k < |ops| && ops[k].Remaining?
    ensures ReplyAt(l, ops, k, None) == Left(RemainingOf(l, Run(l, ops[..k], None).rows, ops[k].clock))
  {
  }

  // --------------------------------------------------------- provider sends

  predicate HitsAttempt(r: Row, p: Probe) {
    r.attemptedAt.Some? && Hits(r.(reservedAt := r.attemptedAt.value), p)
  }

  /** Sends counted by the instant of the attempt. */
  function SendCount(rows: seq<Row>, p: Probe): nat {
    if rows == [] then 0 else (if HitsAttempt(rows[0], p) then 1 else 0) + SendCount(rows[1..], p)
  }

  lemma {:induction false} SendCountAppend(a: seq<Row>, b: seq<Row>, p: Probe)
    ensures SendCount(a + b, p) == SendCount(a, p) + SendCount(b, p)
  {
    if a == [] {
      assert a + b == b;
    } else {
      SendCountAppend(a[1..], b, p);
      assert (a + b)[1..] == a[1..] + b;
    }
  }

  /** An attempt happens less than a minute after its reservation. */
  ghost predicate Prompt(r: Row) {
    r.attemptedAt.Some? ==> r.reservedAt <= r.attemptedAt.value < r.reservedAt + MINUTE
  }

  /** The send log and the table tell the same story. */
  ghost predicate SendsMatch(s: State) {
    && UniqueIds(s.rows)
    && UniqueIds(s.sends)
    && (forall r :: r in s.rows ==> Prompt(r))
    && (forall x :: x in s.sends ==> exists r :: r in s.rows && r.id == x.id && r.attemptedAt.Some?)
    && (forall p :: SendCount(s.sends, p) == SendCount(s.rows, p))
  }

  lemma {:induction false} FindClaimableMeaning(rows: seq<Row>, id: string, clock: int)
    ensures var hit := FindClaimable(rows, id, clock);
      && (hit.Some? ==> hit.value in rows && Claimable(hit.value, id, clock))
      && (hit.None? ==> ClaimRows(rows, id, clock) == rows)
  {
    if rows != [] {
      FindClaimableMeaning(rows[1..], id, clock);
      assert rows == [rows[0]] + rows[1..];
      ClaimCons(rows[0], rows[1..], id, clock);
    }
  }

  lemma {:induction false} ClaimAddsOneSend(rows: seq<Row>, id: string, clock: int, p: Probe)
    requires UniqueIds(rows) && FindClaimable(rows, id, clock).Some?
    ensures SendCount(ClaimRows(rows, id, clock), p)
         == SendCount(rows, p) + SendCount([Attempted(FindClaimable(rows, id, clock).value, clock)], p)
  {
    assert rows == [rows[0]] + rows[1..];
    ClaimCons(rows[0], rows[1..], id, clock);
    var after := ClaimRows(rows, id, clock);
    assert after[1..] == ClaimRows(rows[1..], id, clock);
    if Claimable(rows[0], id, clock) {
      forall k | 0 <= k < |rows[1..]| ensures rows[1..][k].id != id {
        assert rows[k + 1].id != rows[0].id;
      }
      assert ClaimRows(rows[1..], id, clock) == rows[1..];
    } else {
      ClaimAddsOneSend(rows[1..], id, clock, p);
    }
  }

  lemma {:induction false} FinishKeepsSendCount(rows: seq<Row>, id: string, outcome: Outcome, p: Probe)
    ensures SendCount(FinishRows(rows, id, outcome), p) == SendCount(rows, p)
  {
    if rows != [] {
      assert rows == [rows[0]] + rows[1..];
      FinishCons(rows[0], rows[1..], id, outcome);
      assert FinishRows(rows, id, outcome)[1..] == FinishRows(rows[1..], id, outcome);
      FinishKeepsSendCount(rows[1..], id, outcome, p);
    }
  }

  lemma ClaimKeepsCounts(s: State, id: string, clock: int)
    requires SendsMatch(s) && FindClaimable(s.rows, id, clock).Some?
    ensures var send := Attempted(FindClaimable(s.rows, id, clock).value, clock);
      forall p :: SendCount(s.sends + [send], p) == SendCount(ClaimRows(s.rows, id, clock), p)
  {
    var send := Attempted(FindClaimable(s.rows, id, clock).value, clock);
    forall p ensures SendCount(s.sends + [send], p) == SendCount(ClaimRows(s.rows, id, clock), p) {
      ClaimAddsOneSend(s.rows, id, clock, p);
      SendCountAppend(s.sends, [send], p);
    }
  }

  /** A claim keeps attempted rows attempted, and none of them had its identifier. */
  lemma ClaimKeepsSent(s: State, id: string, clock: int, x: Row)
    requires SendsMatch(s) && FindClaimable(s.rows, id, clock).Some? && x in s.sends
    ensures x.id != id && exists r :: r in ClaimRows(s.rows, id, clock) && r.id == x.id && r.attemptedAt.Some?
  {
    FindClaimableMeaning(s.rows, id, clock);
    var k :| 0 <= k < |s.rows| && s.rows[k] == FindClaimable(s.rows, id, clock).value;
    var i :| 0 <= i < |s.rows| && s.rows[i].id == x.id && s.rows[i].attemptedAt.Some?;
    assert ClaimRows(s.rows, id, clock)[i] in ClaimRows(s.rows, id, clock);
  }

  lemma ClaimKeepsMatch(s: State, id: string, clock: int)
    requires SendsMatch(s)
    ensures var hit := FindClaimable(s.rows, id, clock);
      SendsMatch(State(ClaimRows(s.rows, id, clock),
                       if hit.Some? then s.sends + [Attempted(hit.value, clock)] else s.sends))
  {
    FindClaimableMeaning(s.rows, id, clock);
    var hit := FindClaimable(s.rows, id, clock);
    if hit.Some? {
      var rows, send := ClaimRows(s.rows, id, clock), Attempted(hit.value, clock);
      var k :| 0 <= k < |s.rows| && s.rows[k] == hit.value;
      assert rows[k] == send;
      forall x | x in s.sends ensures x.id != id && exists r :: r in rows && r.id == x.id && r.attemptedAt.Some? {
        ClaimKeepsSent(s, id, clock, x);
      }
      ClaimKeepsCounts(s, id, clock);
    }
  }

  lemma FinishKeepsMatch(s: State, id: string, outcome: Outcome)
    requires SendsMatch(s)
    ensures SendsMatch(s.(rows := FinishRows(s.rows, id, outcome)))
  {
    var rows := FinishRows(s.rows, id, outcome);
    forall r | r in rows ensures Prompt(r) {
      var k :| 0 <= k < |rows| && rows[k] == r;
      assert s.rows[k] in s.rows;
    }
    forall x | x in s.sends ensures exists r :: r in rows && r.id == x.id && r.attemptedAt.Some? {
      var i :| 0 <= i < |s.rows| && s.rows[i].id == x.id && s.rows[i].attemptedAt.Some?;
      assert rows[i] in rows;
    }
    forall p ensures SendCount(s.sends, p) == SendCount(rows, p) {
      FinishKeepsSendCount(s.rows, id, outcome, p);
    }
  }

  lemma GrantKeepsMatch(s: State, row: Row)
    requires SendsMatch(s) && row.attemptedAt.None? && !HasId(s.rows, row.id)
    ensures SendsMatch(s.(rows := s.rows + [row]))
  {
    forall x | x in s.sends ensures exists r :: r in s.rows + [row] && r.id == x.id && r.attemptedAt.Some? {
      var r :| r in s.rows && r.id == x.id && r.attemptedAt.Some?;
      assert r in s.rows + [row];
    }
    forall p ensures SendCount(s.sends, p) == SendCount(s.rows + [row], p) {
      SendCountAppend(s.rows, [row], p);
    }
  }

  lemma {:induction false} RunKeepsMatch(l: Limits, ops: seq<Op>)
    requires ValidLimits(l) && DistinctIds(ops)
    ensures SendsMatch(Run(l, ops, None))
  {
    if ops != [] {
      var k := |ops| - 1;
      RunKeepsMatch(l, ops[..k]);
      var s := Run(l, ops[..k], None);
      match ops[k]
      case Reserve(recipient, clock, id) =>
        IdsIssued(l, ops[..k]);
        ReserveOutcome(l, s.rows, ops[k], None, s.rows);
        GrantKeepsMatch(s, Row(id, recipient, Millis(clock), None, Reserved));
      case Claim(id, clock) => ClaimKeepsMatch(s, id, clock);
      case Finish(id, outcome) => FinishKeepsMatch(s, id, outcome);
      case Remaining(_) =>
    }
  }

  /** Counting prompt attempts in a window counts reservations in the window opened one minute earlier. */
  lemma {:induction false} SendsAreReserved(rows: seq<Row>, who: Option<string>, after: int, upTo: int)
    requires forall r :: r in rows ==> Prompt(r)
    ensures SendCount(rows, Probe(who, after, Some(upTo))) <= Count(rows, Probe(who, after - MINUTE, Some(upTo)))
  {
    if rows != [] {
      assert rows[0] in rows;
      forall r | r in rows[1..] ensures r in rows {}
      SendsAreReserved(rows[1..], who, after, upTo);
    }
  }

  lemma SendsWithin(l: Limits, s: State, d: Dimension, recipient: string, t: int)
    requires SendsMatch(s) && WithinLimits(l, s.rows)
    ensures SendCount(s.sends, Probe(WhoOf(d, recipient), t - (WindowOf(d) - MINUTE), Some(t))) <= MaxOf(l, d)
  {
    SendsAreReserved(s.rows, WhoOf(d, recipient), t - (WindowOf(d) - MINUTE), t);
    assert Count(s.rows, WindowAt(d, recipient, t)) <= MaxOf(l, d);
  }

  /** Each reservation leads to at most one provider send, whatever its outcome. */
  lemma OneSendPerReservation(l: Limits, ops: seq<Op>, i: nat, j: nat)
    requires ValidLimits(l) && Tolerant(ops) && DistinctIds(ops)
    requires i < j < |Run(l, ops, Some(RETENTION)).sends|
    ensures var sends := Run(l, ops, Some(RETENTION)).sends;
      sends[i].id != sends[j].id
  {
    RunSimulates(l, ops);
    RunKeepsMatch(l, ops);
  }

  /**
    Measured by the instant of the send, any window one minute shorter than a
    dimension's own holds at most that dimension's limit of provider sends.
  */
  lemma SendBound(l: Limits, ops: seq<Op>, d: Dimension, recipient: string, t: int)
    requires ValidLimits(l) && Tolerant(ops) && DistinctIds(ops)
    ensures SendCount(Run(l, ops, Some(RETENTION)).sends,
                      Probe(WhoOf(d, recipient), t - (WindowOf(d) - MINUTE), Some(t))) <= MaxOf(l, d)
  {
    RunSimulates(l, ops);
    RunKeepsMatch(l, ops);
    ReferenceWithinLimits(l, ops);
    SendsWithin(l, Run(l, ops, None), d, recipient, t);
  }
}
