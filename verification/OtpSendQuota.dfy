/**
  The rolling send budget for one-time passwords: three overlapping sliding
  windows over one table of reservations, a retention purge, and the
  reserve / claim / finish state machine that guards every provider send.

  Instants are microseconds, the resolution of the database clock. `reserve`
  reads that clock through a driver that truncates to whole milliseconds.
*/
module OtpSendQuota {
  import opened Prelude

  const MINUTE: int := 60 * SECOND
  const HOUR: int := 60 * MINUTE
  const DAY: int := 24 * HOUR
  const RETENTION: int := 48 * HOUR

  datatype Outcome = Reserved | Accepted | Rejected | Unknown

  datatype Row = Row(id: string, recipient: string, reservedAt: int, attemptedAt: Option<int>, outcome: Outcome)

  datatype Limits = Limits(recipientHourlyMax: int, recipientDailyMax: int, globalDailyMax: int)

  datatype Dimension = RecipientHour | RecipientDay | GlobalDay

  datatype Reservation =
    | Allowed(id: string)
    | Denied(dimension: Dimension, retryAfterSeconds: int)
    | Unavailable

  predicate ValidLimits(l: Limits) {
    && 1 <= l.recipientHourlyMax <= 20
    && 1 <= l.recipientDailyMax <= 100
    && 1 <= l.globalDailyMax <= 10_000
    && l.recipientHourlyMax <= l.recipientDailyMax
  }

  /** The configured limits: at least one each, at most 20 and 100 for a recipient and 10000 for all, hour below day. */
  lemma LimitsMeaning(l: Limits)
    ensures ValidLimits(l) <==>
      && 0 < l.recipientHourlyMax < 21 && 0 < l.recipientDailyMax < 101 && 0 < l.globalDailyMax < 10_001
      && l.recipientDailyMax >= l.recipientHourlyMax
  {
  }

  function WindowOf(d: Dimension): int {
    if d.RecipientHour? then HOUR else DAY
  }

  function MaxOf(l: Limits, d: Dimension): int {
    match d
    case RecipientHour => l.recipientHourlyMax
    case RecipientDay => l.recipientDailyMax
    case GlobalDay => l.globalDailyMax
  }

  // ---------------------------------------------------------------- queries

  /** A WHERE clause over reservations: optional recipient, open lower and optional closed upper bound. */
  datatype Probe = Probe(who: Option<string>, after: int, upTo: Option<int>)

  predicate Hits(r: Row, p: Probe) {
    && (p.who.Some? ==> r.recipient == p.who.value)
    && p.after < r.reservedAt
    && (p.upTo.Some? ==> r.reservedAt <= p.upTo.value)
  }

  function Select(rows: seq<Row>, p: Probe): seq<Row> {
    if rows == [] then [] else (if Hits(rows[0], p) then [rows[0]] else []) + Select(rows[1..], p)
  }

  function Count(rows: seq<Row>, p: Probe): nat {
    |Select(rows, p)|
  }

  function WhoOf(d: Dimension, recipient: string): Option<string> {
    if d.GlobalDay? then None else Some(recipient)
  }

  /** What a dimension counts at `now`: everything of its scope after `now` minus its window. */
  function Load(d: Dimension, recipient: string, now: int): Probe {
    Probe(WhoOf(d, recipient), now - WindowOf(d), None)
  }

  /** ORDER BY reserved_at. */
  function SortByTime(rows: seq<Row>): seq<Row> {
    if rows == [] then [] else Insert(rows[0], SortByTime(rows[1..]))
  }

  function Insert(r: Row, rows: seq<Row>): seq<Row> {
    if rows == [] || r.reservedAt <= rows[0].reservedAt then [r] + rows else [rows[0]] + Insert(r, rows[1..])
  }

  // --------------------------------------------------------------- decision

  function Recent(rows: seq<Row>, now: int): seq<Row> {
    SortByTime(Select(rows, Probe(None, now - DAY, None)))
  }

  /** The sorted events one rule looks at. */
  function Events(rows: seq<Row>, d: Dimension, recipient: string, now: int): seq<Row> {
    var day := Select(Recent(rows, now), Probe(Some(recipient), now - DAY, None));
    match d
    case RecipientHour => Select(day, Probe(Some(recipient), now - HOUR, None))
    case RecipientDay => day
    case GlobalDay => Recent(rows, now)
  }

  function CeilDiv(a: int, b: int): int
    requires b > 0
  {
    (a + b - 1) / b
  }

  function RetrySeconds(release: int, window: int, now: int): int {
    var wait := CeilDiv(release + window - now, SECOND);
    if wait < 1 then 1 else wait
  }

  /** One round of the rule loop: keeps the denial with the longest wait, the earlier rule on a tie. */
  function Consider(best: Option<Reservation>, events: seq<Row>, d: Dimension, max: int, now: int): Option<Reservation>
    requires best.Some? ==> best.value.Denied?
    requires 1 <= max
  {
    if |events| < max then best
    else
      var retry := RetrySeconds(events[|events| - max].reservedAt, WindowOf(d), now);
      if best.None? || retry > best.value.retryAfterSeconds then Some(Denied(d, retry)) else best
  }

  const DIMENSIONS: seq<Dimension> := [RecipientHour, RecipientDay, GlobalDay]

  /** The denial after the first `n` rules. */
  function Denial(l: Limits, rows: seq<Row>, recipient: string, now: int, n: nat): (r: Option<Reservation>)
    requires ValidLimits(l) && n <= |DIMENSIONS|
    ensures r.Some? ==> r.value.Denied?
  {
    if n == 0 then None
    else
      var d := DIMENSIONS[n - 1];
      Consider(Denial(l, rows, recipient, now, n - 1), Events(rows, d, recipient, now), d, MaxOf(l, d), now)
  }

  /** The answer of the whole rule loop: None when every window has room. */
  function Verdict(l: Limits, rows: seq<Row>, recipient: string, now: int): (r: Option<Reservation>)
    requires ValidLimits(l)
    ensures r.Some? ==> r.value.Denied?
  {
    Denial(l, rows, recipient, now, |DIMENSIONS|)
  }

  /** The three rules in order, each with its events and its limit. */
  predicate RulesOf(l: Limits, rows: seq<Row>, recipient: string, now: int, rules: seq<(Dimension, seq<Row>, int)>) {
    && |rules| == |DIMENSIONS|
    && forall k :: 0 <= k < |rules| ==>
         rules[k] == (DIMENSIONS[k], Events(rows, DIMENSIONS[k], recipient, now), MaxOf(l, DIMENSIONS[k]))
  }

  lemma DenialStep(l: Limits, rows: seq<Row>, recipient: string, now: int, n: nat)
    requires ValidLimits(l) && n < |DIMENSIONS|
    ensures Denial(l, rows, recipient, now, n + 1)
         == Consider(Denial(l, rows, recipient, now, n), Events(rows, DIMENSIONS[n], recipient, now), DIMENSIONS[n],
                     MaxOf(l, DIMENSIONS[n]), now)
  {
  }

  predicate HasId(rows: seq<Row>, id: string) {
    exists r :: r in rows && r.id == id
  }

  function Millis(clock: int): int {
    clock - clock % 1000
  }

  /** `reserve` on a table: retention None is the reference limiter that never deletes. */
  function ReserveStep(l: Limits, rows: seq<Row>, recipient: string, clock: int, id: string, retention: Option<int>)
    : (seq<Row>, Reservation)
    requires ValidLimits(l)
  {
    var now := Millis(clock);
    var kept := if retention.None? then rows else Select(rows, Probe(None, now - retention.value, None));
    var denied := Verdict(l, kept, recipient, now);
    if denied.Some? then (kept, denied.value)
    else if HasId(kept, id) then (rows, Unavailable)
    else (kept + [Row(id, recipient, now, None, Reserved)], Allowed(id))
  }

  predicate Claimable(r: Row, id: string, clock: int) {
    r.id == id && r.attemptedAt.None? && r.outcome.Reserved? && r.reservedAt > clock - MINUTE
  }

  function AttemptTime(r: Row, clock: int): int {
    if clock > r.reservedAt then clock else r.reservedAt
  }

  function ClaimRows(rows: seq<Row>, id: string, clock: int): (s: seq<Row>)
    ensures |s| == |rows|
    ensures forall i :: 0 <= i < |s| ==>
      s[i] == if Claimable(rows[i], id, clock) then rows[i].(attemptedAt := Some(AttemptTime(rows[i], clock)))
        else rows[i]
  {
    seq(|rows|, i requires 0 <= i < |rows| =>
      if Claimable(rows[i], id, clock) then rows[i].(attemptedAt := Some(AttemptTime(rows[i], clock))) else rows[i])
  }

  predicate Finishable(r: Row, id: string) {
    r.id == id && r.attemptedAt.Some? && r.outcome.Reserved?
  }

  function FinishRows(rows: seq<Row>, id: string, outcome: Outcome): (s: seq<Row>)
    ensures |s| == |rows|
    ensures forall i :: 0 <= i < |s| ==>
      s[i] == if Finishable(rows[i], id) then rows[i].(outcome := outcome) else rows[i]
  {
    seq(|rows|, i requires 0 <= i < |rows| => if Finishable(rows[i], id) then rows[i].(outcome := outcome) else rows[i])
  }

  function RemainingOf(l: Limits, rows: seq<Row>, clock: int): int {
    var left := l.globalDailyMax - Count(rows, Probe(None, clock - DAY, None));
    if left < 0 then 0 else left
  }

  /** The primary key. */
  ghost predicate UniqueIds(rows: seq<Row>) {
    forall i, j :: 0 <= i < j < |rows| ==> rows[i].id != rows[j].id
  }

  /** Rows i of `now` and `was` differ at most for the reservation `id`. */
  ghost predicate OnlyTouches(was: seq<Row>, now: seq<Row>, id: string) {
    |now| == |was| && forall i :: 0 <= i < |was| ==> now[i].id == was[i].id && (was[i].id != id ==> now[i] == was[i])
  }

  // ------------------------------------------------------------- the object

  class PostgresOtpSendQuota {
    const limits: Limits
    var rows: seq<Row>

    constructor (limits: Limits)
      requires ValidLimits(limits)
      ensures this.limits == limits && rows == []
    {
      this.limits := limits;
      rows := [];
    }

    method Reserve(recipient: string, clock: int, id: string) returns (r: Reservation)
      requires ValidLimits(limits)
      modifies this`rows
      ensures (rows, r) == ReserveStep(limits, old(rows), recipient, clock, id, Some(RETENTION))
    {
      var now := Millis(clock);
      var kept := Select(rows, Probe(None, now - RETENTION, None));
      var denied := Decide(kept, recipient, now);
      if denied.Some? {
        rows := kept;
        return denied.value;
      }
      if HasId(kept, id) {
        return Unavailable;
      }
      rows := kept + [Row(id, recipient, now, None, Reserved)];
      r := Allowed(id);
    }

    /** The loop over the three rules. */
    method Decide(kept: seq<Row>, recipient: string, now: int) returns (denied: Option<Reservation>)
      requires ValidLimits(limits)
      ensures denied == Verdict(limits, kept, recipient, now)
    {
      var recent := SortByTime(Select(kept, Probe(None, now - DAY, None)));
      var day := Select(recent, Probe(Some(recipient), now - DAY, None));
      var hour := Select(day, Probe(Some(recipient), now - HOUR, None));
      denied := None;
      var rules: seq<(Dimension, seq<Row>, int)> := [
        (RecipientHour, hour, limits.recipientHourlyMax),
        (RecipientDay, day, limits.recipientDailyMax),
        (GlobalDay, recent, limits.globalDailyMax)];
      assert RulesOf(limits, kept, recipient, now, rules);
      for k := 0 to |rules|
        invariant denied == Denial(limits, kept, recipient, now, k)
      {
        var (dimension, events, max) := rules[k];
        DenialStep(limits, kept, recipient, now, k);
        if |events| >= max {
          var retry := RetrySeconds(events[|events| - max].reservedAt, WindowOf(dimension), now);
          if denied.None? || retry > denied.value.retryAfterSeconds {
            denied := Some(Denied(dimension, retry));
          }
        }
      }
    }

    /** A claim that succeeds is the only one the reservation will ever see, at whatever clock another is tried. */
    method Claim(id: string, clock: int) returns (claimed: bool)
      requires UniqueIds(rows)
      modifies this`rows
      ensures UniqueIds(rows) && OnlyTouches(old(rows), rows, id)
      ensures rows == ClaimRows(old(rows), id, clock)
      ensures claimed <==> exists r :: r in old(rows) && Claimable(r, id, clock)
      ensures claimed <==>
        exists r :: (r in old(rows) && r.id == id
                     && r.attemptedAt.None? && r.outcome == Reserved && clock - r.reservedAt < 60_000_000)
      // The attempt is stored under the reading of this call, or the reservation's instant if that is later.
      ensures claimed ==> forall i :: 0 <= i < |rows| && rows[i].id == id ==>
        && rows[i] == old(rows)[i].(attemptedAt := rows[i].attemptedAt)
        && rows[i].attemptedAt.Some?
        && rows[i].attemptedAt.value in {clock, rows[i].reservedAt}
        && clock <= rows[i].attemptedAt.value && rows[i].reservedAt <= rows[i].attemptedAt.value
      ensures !claimed ==> rows == old(rows)
      ensures claimed ==> forall r, later :: r in rows ==> !Claimable(r, id, later)
      ensures claimed ==> exists r :: r in rows && Finishable(r, id)
    {
      claimed := false;
      ghost var hit := 0;
      for i := 0 to |rows|
        invariant |rows| == |old(rows)|
        invariant forall j :: 0 <= j < i ==> rows[j] == ClaimRows(old(rows), id, clock)[j]
        invariant forall j :: i <= j < |rows| ==> rows[j] == old(rows)[j]
        invariant claimed <==> exists j :: 0 <= j < i && Claimable(old(rows)[j], id, clock)
        invariant claimed ==> 0 <= hit < i && Finishable(rows[hit], id)
      {
        if Claimable(rows[i], id, clock) {
          rows := rows[i := rows[i].(attemptedAt := Some(AttemptTime(rows[i], clock)))];
          claimed := true;
          hit := i;
        }
      }
    }

    /** An outcome is written once: after a success no other one for this reservation succeeds. */
    method Finish(id: string, outcome: Outcome) returns (result: Result<()>)
      requires UniqueIds(rows) && !outcome.Reserved?
      modifies this`rows
      ensures UniqueIds(rows) && OnlyTouches(old(rows), rows, id)
      ensures rows == FinishRows(old(rows), id, outcome)
      ensures result.Ok? <==> exists r :: r in old(rows) && Finishable(r, id)
      ensures result.Ok? <==> exists r :: r in old(rows) && r.id == id && r.attemptedAt.Some? && r.outcome == Reserved
      ensures result.Ok? ==> forall i :: 0 <= i < |rows| && rows[i].id == id ==>
        rows[i] == old(rows)[i].(outcome := outcome)
      ensures result.Err? ==> rows == old(rows)
      ensures forall r :: r in rows ==> !Finishable(r, id)
      ensures result.Ok? ==> exists r :: r in rows && r.id == id && r.outcome == outcome
    {
      var found := false;
      for i := 0 to |rows|
        invariant |rows| == |old(rows)|
        invariant forall j :: 0 <= j < i ==> rows[j] == FinishRows(old(rows), id, outcome)[j]
        invariant forall j :: i <= j < |rows| ==> rows[j] == old(rows)[j]
        invariant found <==> exists j :: 0 <= j < i && Finishable(old(rows)[j], id)
      {
        if Finishable(rows[i], id) {
          rows := rows[i := rows[i].(outcome := outcome)];
          found := true;
        }
      }
      result := if found then Ok(()) else Err("otp_send_outcome_not_saved");
    }

    method Remaining(clock: int) returns (left: int)
      ensures left == RemainingOf(limits, rows, clock)
      ensures left == 0 <==> Count(rows, Probe(None, clock - DAY, None)) >= limits.globalDailyMax
      ensures left > 0 ==> left + Count(rows, Probe(None, clock - DAY, None)) == limits.globalDailyMax
    {
      var count := 0;
      for i := 0 to |rows|
        invariant count == Count(rows[..i], Probe(None, clock - DAY, None))
      {
        if rows[i].reservedAt > clock - DAY {
          count := count + 1;
        }
        CountSnoc(rows[..i], rows[i], Probe(None, clock - DAY, None));
        assert rows[..i + 1] == rows[..i] + [rows[i]];
      }
      assert rows[..|rows|] == rows;
      left := if limits.globalDailyMax > count then limits.globalDailyMax - count else 0;
    }
  }

  lemma {:induction false} SelectUnique(rows: seq<Row>, p: Probe)
    requires UniqueIds(rows)
    ensures UniqueIds(Select(rows, p)) && forall r :: r in Select(rows, p) ==> r in rows
  {
    if rows != [] {
      SelectUnique(rows[1..], p);
      var rest := Select(rows[1..], p);
      forall j | 0 <= j < |rest| ensures rest[j].id != rows[0].id {
        assert rest[j] in rest;
      }
    }
  }

  lemma ReserveKeepsUnique(l: Limits, rows: seq<Row>, recipient: string, clock: int, id: string)
    requires ValidLimits(l) && UniqueIds(rows)
    ensures UniqueIds(ReserveStep(l, rows, recipient, clock, id, Some(RETENTION)).0)
  {
    SelectUnique(rows, Probe(None, Millis(clock) - RETENTION, None));
  }

  lemma {:induction false} CountSnoc(rows: seq<Row>, r: Row, p: Probe)
    ensures Count(rows + [r], p) == Count(rows, p) + (if Hits(r, p) then 1 else 0)
  {
    if rows == [] {
      assert rows + [r] == [r];
    } else {
      CountSnoc(rows[1..], r, p);
      assert (rows + [r])[1..] == rows[1..] + [r];
    }
  }
}
