/**
  The revocation outbox and its worker: at-least-once delivery with two-minute
  leases, exponential backoff and a cap of twenty attempts. Instants are
  microseconds of the database clock.
*/
module RevocationOutbox {
  import opened Prelude

  const LEASE: int := 120 * SECOND
  const MAX_ATTEMPTS := 20

  datatype Row = Row(
    id: int, resource: string, notBefore: int, attempts: nat,
    lockedAt: Option<int>, deliveredAt: Option<int>, lastError: Option<string>)

  predicate Claimable(r: Row, now: int) {
    && r.deliveredAt.None?
    && r.notBefore <= now
    && r.attempts < MAX_ATTEMPTS
    && (r.lockedAt.None? || r.lockedAt.value < now - LEASE)
  }

  /** A claim skips the rows that a concurrent transaction holds locked. */
  predicate Free(r: Row, now: int, held: set<int>) {
    Claimable(r, now) && r.id !in held
  }

  function ClaimedRow(r: Row, now: int): Row {
    r.(lockedAt := Some(now), attempts := r.attempts + 1)
  }

  function Bounded(value: int, low: int, high: int): int {
    if value > high then (if high > low then high else low) else if value > low then value else low
  }

  /**
    Claims the first free rows in id order, at most `limit`: the table is kept in id order, as the
    identity column assigns it.
  */
  function ClaimRows(rows: seq<Row>, limit: nat, now: int, held: set<int>): (s: seq<Row>)
    ensures |s| == |rows|
  {
    if rows == [] then []
    else if limit > 0 && Free(rows[0], now, held) then
      [ClaimedRow(rows[0], now)] + ClaimRows(rows[1..], limit - 1, now, held)
    else [rows[0]] + ClaimRows(rows[1..], limit, now, held)
  }

  /** The records a claim returns. */
  function ClaimedRecords(rows: seq<Row>, limit: nat, now: int, held: set<int>): seq<Row> {
    if rows == [] then []
    else if limit > 0 && Free(rows[0], now, held) then
      [ClaimedRow(rows[0], now)] + ClaimedRecords(rows[1..], limit - 1, now, held)
    else ClaimedRecords(rows[1..], limit, now, held)
  }

  function DeliveredRow(r: Row, id: int, now: int): Row {
    if r.id == id && r.deliveredAt.None? then r.(deliveredAt := Some(now), lockedAt := None, lastError := None) else r
  }

  predicate Lower(c: char) {
    'a' <= c <= 'z'
  }

  /** A lower-case letter, and then two to 63 lower-case letters, digits, underscores, dots or hyphens. */
  predicate ErrorCode(code: string) {
    && 3 <= |code| <= 64 && Lower(code[0])
    && forall i :: 1 <= i < |code| ==> Lower(code[i]) || '0' <= code[i] <= '9' || code[i] in "_.-"
  }

  function SafeCode(code: string): string {
    if ErrorCode(code) then code else "delivery_failed"
  }

  /** Whatever code comes in, what is stored is a code; and a code is stored as it is. */
  lemma SafeCodeMeaning(code: string)
    ensures ErrorCode(SafeCode(code)) && (ErrorCode(code) ==> SafeCode(code) == code)
    ensures ErrorCode("signing.failed")
  {
  }

  function RescheduledRow(r: Row, id: int, code: string, delaySeconds: int, now: int): Row {
    if r.id == id && r.deliveredAt.None?
    then r.(lockedAt := None, notBefore := now + Bounded(delaySeconds, 1, 3600) * SECOND,
           lastError := Some(SafeCode(code)))
    else r
  }

  function MarkRows(rows: seq<Row>, id: int, now: int): (s: seq<Row>)
    ensures |s| == |rows| && forall i :: 0 <= i < |s| ==> s[i] == DeliveredRow(rows[i], id, now)
  {
    seq(|rows|, i requires 0 <= i < |rows| => DeliveredRow(rows[i], id, now))
  }

  function RescheduleRows(rows: seq<Row>, id: int, code: string, delaySeconds: int, now: int): (s: seq<Row>)
    ensures |s| == |rows| && forall i :: 0 <= i < |s| ==> s[i] == RescheduledRow(rows[i], id, code, delaySeconds, now)
  {
    seq(|rows|, i requires 0 <= i < |rows| => RescheduledRow(rows[i], id, code, delaySeconds, now))
  }

  // ---------------------------------------------------------------- backoff

  function Pow2(n: nat): nat {
    if n == 0 then 1 else 2 * Pow2(n - 1)
  }

  function Capped(attempts: nat): nat {
    if attempts < 11 then attempts else 11
  }

  /** The worker's delay for a record claimed for the given time. */
  function Backoff(attempts: nat): int {
    var delay := Pow2(Capped(attempts));
    if delay < 3600 then delay else 3600
  }

  lemma {:induction false} PowMonotone(m: nat, n: nat)
    requires m <= n
    ensures Pow2(m) <= Pow2(n)
  {
    if m < n {
      PowMonotone(m, n - 1);
    }
  }

  /** Neither the worker's own cap nor the clamp of `reschedule` ever changes 2^min(attempts, 11). */
  lemma ClampIsIdle(attempts: nat)
    ensures Bounded(Backoff(attempts), 1, 3600) == Backoff(attempts) == Pow2(Capped(attempts))
  {
    PowMonotone(0, Capped(attempts));
    PowMonotone(Capped(attempts), 11);
    assert Pow2(11) == 2048;
  }

  /** What a claim does to each row, and how many records it returns. */
  lemma {:induction false} ClaimFacts(rows: seq<Row>, limit: nat, now: int, held: set<int>)
    ensures |ClaimedRecords(rows, limit, now, held)| <= limit
    ensures forall i :: 0 <= i < |rows| ==>
      ClaimRows(rows, limit, now, held)[i] == rows[i]
      || (Free(rows[i], now, held) && ClaimRows(rows, limit, now, held)[i] == ClaimedRow(rows[i], now))
    ensures |ClaimedRecords(rows, limit, now, held)| < limit ==>
      forall i :: 0 <= i < |rows| && Free(rows[i], now, held) ==> ClaimRows(rows, limit, now, held)[i] != rows[i]
  {
    if rows != [] {
      ClaimFacts(rows[1..], if limit > 0 && Free(rows[0], now, held) then limit - 1 else limit, now, held);
    }
  }

  lemma {:induction false} NothingTaken(rows: seq<Row>, now: int, held: set<int>)
    ensures ClaimRows(rows, 0, now, held) == rows && ClaimedRecords(rows, 0, now, held) == []
  {
    if rows != [] {
      NothingTaken(rows[1..], now, held);
    }
  }

  /**
    A claim takes only records that are undelivered, due, tried fewer than twenty
    times, not held elsewhere, and unlocked or locked for more than two minutes;
    it locks each now and counts the attempt.
  */
  lemma {:induction false} OnlyDueIsTaken(rows: seq<Row>, limit: nat, now: int, held: set<int>, i: nat)
    requires i < |rows| && ClaimRows(rows, limit, now, held)[i] != rows[i]
    ensures rows[i].deliveredAt.None? && rows[i].notBefore <= now && rows[i].attempts < 20 && rows[i].id !in held
    ensures rows[i].lockedAt.None? || now - rows[i].lockedAt.value > 120_000_000
    ensures ClaimRows(rows, limit, now, held)[i] == rows[i].(lockedAt := Some(now), attempts := rows[i].attempts + 1)
  {
    if i > 0 {
      OnlyDueIsTaken(rows[1..], if limit > 0 && Free(rows[0], now, held) then limit - 1 else limit, now, held, i - 1);
    }
  }

  /** Of those it takes the first ones: each that comes before a taken one, and all of them if there is room. */
  lemma {:induction false} DueIsTaken(rows: seq<Row>, limit: nat, now: int, held: set<int>, i: nat, j: nat)
    requires i <= j < |rows|
    requires rows[i].deliveredAt.None? && rows[i].notBefore <= now && rows[i].attempts < 20 && rows[i].id !in held
    requires rows[i].lockedAt.None? || now - rows[i].lockedAt.value > 120_000_000
    requires |ClaimedRecords(rows, limit, now, held)| < limit || ClaimRows(rows, limit, now, held)[j] != rows[j]
    ensures ClaimRows(rows, limit, now, held)[i] == rows[i].(lockedAt := Some(now), attempts := rows[i].attempts + 1)
  {
    if limit == 0 {
      NothingTaken(rows, now, held);
    } else if i > 0 {
      DueIsTaken(rows[1..], if Free(rows[0], now, held) then limit - 1 else limit, now, held, i - 1, j - 1);
    }
  }

  lemma ClaimTakesDue(rows: seq<Row>, limit: nat, now: int, held: set<int>)
    ensures forall i :: 0 <= i < |rows| && ClaimRows(rows, limit, now, held)[i] != rows[i] ==>
      && rows[i].deliveredAt.None? && rows[i].notBefore <= now && rows[i].attempts < 20 && rows[i].id !in held
      && (rows[i].lockedAt.None? || now - rows[i].lockedAt.value > 120_000_000)
      && ClaimRows(rows, limit, now, held)[i] == rows[i].(lockedAt := Some(now), attempts := rows[i].attempts + 1)
    ensures |ClaimedRecords(rows, limit, now, held)| < limit ==> forall i :: 0 <= i < |rows| ==>
      (rows[i].deliveredAt.None? && rows[i].notBefore <= now && rows[i].attempts < 20 && rows[i].id !in held
       && (rows[i].lockedAt.None? || now - rows[i].lockedAt.value > 120_000_000)) ==>
        ClaimRows(rows, limit, now, held)[i] == rows[i].(lockedAt := Some(now), attempts := rows[i].attempts + 1)
  {
    forall i: nat | i < |rows| && ClaimRows(rows, limit, now, held)[i] != rows[i]
      ensures rows[i].deliveredAt.None? && rows[i].notBefore <= now && rows[i].attempts < 20 && rows[i].id !in held
      ensures rows[i].lockedAt.None? || now - rows[i].lockedAt.value > 120_000_000
      ensures ClaimRows(rows, limit, now, held)[i] == rows[i].(lockedAt := Some(now), attempts := rows[i].attempts + 1)
    {
      OnlyDueIsTaken(rows, limit, now, held, i);
    }
    if |ClaimedRecords(rows, limit, now, held)| < limit {
      forall i: nat | i < |rows|
        && rows[i].deliveredAt.None? && rows[i].notBefore <= now && rows[i].attempts < 20 && rows[i].id !in held
        && (rows[i].lockedAt.None? || now - rows[i].lockedAt.value > 120_000_000)
        ensures ClaimRows(rows, limit, now, held)[i]
             == rows[i].(lockedAt := Some(now), attempts := rows[i].attempts + 1)
      {
        DueIsTaken(rows, limit, now, held, i, i);
      }
    }
  }

  /** One turn of the claim's loop: row i, then the rest. */
  lemma ClaimSplits(rows: seq<Row>, i: nat, records: seq<Row>, limit: nat, now: int, held: set<int>)
    requires i < |rows|
    ensures var taken := limit > 0 && Free(rows[i], now, held);
      var after := if taken then rows[i := ClaimedRow(rows[i], now)] else rows;
      var rest := if taken then limit - 1 else limit;
      && rows[..i] + ClaimRows(rows[i..], limit, now, held)
        == after[..i + 1] + ClaimRows(after[i + 1..], rest, now, held)
      && records + ClaimedRecords(rows[i..], limit, now, held)
         == (if taken then records + [ClaimedRow(rows[i], now)] else records)
           + ClaimedRecords(after[i + 1..], rest, now, held)
      && after[i + 1..] == rows[i + 1..]
  {
    assert rows[i..][1..] == rows[i + 1..] && rows[i..][0] == rows[i];
  }

  // ------------------------------------------------------------- the outbox

  class PostgresRevocationOutbox {
    var rows: seq<Row>

    constructor (rows: seq<Row>)
      ensures this.rows == rows
    {
      this.rows := rows;
    }

    /**
      Takes up to the bounded limit of free rows and returns them as it left them:
      locked now, with one attempt more, and not to be claimed again while the lock
      lasts. It takes fewer only if no free row is left, and no other row changes.
    */
    method Claim(limit: int, now: int, held: set<int>) returns (records: seq<Row>)
      modifies this
      ensures rows == ClaimRows(old(rows), Bounded(limit, 1, 100), now, held)
      ensures records == ClaimedRecords(old(rows), Bounded(limit, 1, 100), now, held)
      ensures |rows| == |old(rows)| && |records| <= Bounded(limit, 1, 100)
      ensures forall i :: 0 <= i < |rows| ==>
        rows[i] == old(rows)[i] || (Free(old(rows)[i], now, held) && rows[i] == ClaimedRow(old(rows)[i], now))
      // Only rows that are undelivered, due, tried fewer than twenty times, not held, and not locked for two minutes.
      ensures forall i :: 0 <= i < |rows| && rows[i] != old(rows)[i] ==>
        var r := old(rows)[i];
        && r.deliveredAt.None? && r.notBefore <= now && r.attempts < 20 && r.id !in held
        && (r.lockedAt.None? || now - r.lockedAt.value > 120_000_000)
        && rows[i] == r.(lockedAt := Some(now), attempts := r.attempts + 1)
      // All of those, if there is room: fewer records than the limit, clamped to 1..100, are returned.
      ensures |records| <= 100 && (|records| <= limit || |records| <= 1)
      ensures |records| < 100 && (|records| == 0 || |records| < limit) ==> forall i :: 0 <= i < |rows| ==>
        var r := old(rows)[i];
        (r.deliveredAt.None? && r.notBefore <= now && r.attempts < 20 && r.id !in held
         && (r.lockedAt.None? || now - r.lockedAt.value > 120_000_000)) ==>
          rows[i] == r.(lockedAt := Some(now), attempts := r.attempts + 1)
      ensures forall i, later :: 0 <= i < |rows| && rows[i] != old(rows)[i] && later <= now + LEASE ==>
        !Claimable(rows[i], later)
      ensures |records| < Bounded(limit, 1, 100) ==>
        forall i :: 0 <= i < |rows| && Free(old(rows)[i], now, held) ==> rows[i] != old(rows)[i]
    {
      var bounded := Bounded(limit, 1, 100);
      ClaimFacts(rows, bounded, now, held);
      ClaimTakesDue(rows, bounded, now, held);
      records := UpdateFree(bounded, now, held);
    }

    /** The UPDATE over the candidates, row by row. */
    method UpdateFree(limit: nat, now: int, held: set<int>) returns (records: seq<Row>)
      modifies this
      ensures rows == ClaimRows(old(rows), limit, now, held)
      ensures records == ClaimedRecords(old(rows), limit, now, held)
    {
      records := [];
      ghost var was := rows;
      ghost var spec, returned := ClaimRows(rows, limit, now, held), ClaimedRecords(rows, limit, now, held);
      assert rows[..0] + ClaimRows(rows[0..], limit, now, held) == spec by {
        assert rows[0..] == rows;
      }
      assert records + ClaimedRecords(rows[0..], limit, now, held) == returned by {
        assert rows[0..] == rows;
      }
      for i := 0 to |rows|
        invariant |rows| == |was| && |records| <= limit
        invariant rows[..i] + ClaimRows(rows[i..], limit - |records|, now, held) == spec
        invariant records + ClaimedRecords(rows[i..], limit - |records|, now, held) == returned
      {
        ClaimSplits(rows, i, records, limit - |records|, now, held);
        if |records| < limit && Free(rows[i], now, held) {
          records := records + [ClaimedRow(rows[i], now)];
          rows := rows[i := ClaimedRow(rows[i], now)];
        }
      }
      assert rows[|rows|..] == [] && rows[..|rows|] == rows;
    }

    /** Whatever it was before, the record is delivered and never claimable again; no other row changes. */
    method MarkDelivered(id: int, now: int)
      modifies this
      ensures rows == MarkRows(old(rows), id, now)
      ensures forall i :: 0 <= i < |rows| && old(rows)[i].id != id ==> rows[i] == old(rows)[i]
      ensures forall i, later :: 0 <= i < |rows| && rows[i].id == id ==>
        rows[i].deliveredAt.Some? && !Claimable(rows[i], later)
      ensures forall i :: 0 <= i < |rows| && rows[i].id == id ==>
        rows[i] == if old(rows)[i].deliveredAt.Some? then old(rows)[i]
                   else old(rows)[i].(deliveredAt := Some(now), lockedAt := None, lastError := None)
    {
      for i := 0 to |rows|
        invariant |rows| == |old(rows)|
        invariant forall j :: 0 <= j < i ==> rows[j] == DeliveredRow(old(rows)[j], id, now)
        invariant forall j :: i <= j < |rows| ==> rows[j] == old(rows)[j]
      {
        if rows[i].id == id && rows[i].deliveredAt.None? {
          rows := rows[i := rows[i].(deliveredAt := Some(now), lockedAt := None, lastError := None)];
        }
      }
    }

    /**
      A delivered record stays as it is. Any other is released, and can be claimed
      from the end of its delay on, and not before, as long as it has attempts left.
    */
    method Reschedule(id: int, code: string, delaySeconds: int, now: int)
      modifies this
      ensures rows == RescheduleRows(old(rows), id, code, delaySeconds, now)
      ensures forall i :: 0 <= i < |rows| && (old(rows)[i].id != id || old(rows)[i].deliveredAt.Some?) ==>
        rows[i] == old(rows)[i]
      ensures forall i :: 0 <= i < |rows| && rows[i].id == id && rows[i].deliveredAt.None? ==>
        && rows[i] == old(rows)[i].(lockedAt := None, lastError := rows[i].lastError, notBefore := rows[i].notBefore)
        && rows[i].lastError == Some(if ErrorCode(code) then code else "delivery_failed")
        && 1_000_000 <= rows[i].notBefore - now <= 3_600_000_000
        && (1 <= delaySeconds <= 3600 ==> rows[i].notBefore - now == delaySeconds * 1_000_000)
        && (delaySeconds < 1 ==> rows[i].notBefore - now == 1_000_000)
        && (delaySeconds > 3600 ==> rows[i].notBefore - now == 3_600_000_000)
      ensures forall i, later :: 0 <= i < |rows| && rows[i].id == id && rows[i].deliveredAt.None? ==>
        (Claimable(rows[i], later) <==>
          rows[i].attempts < MAX_ATTEMPTS && later >= now + Bounded(delaySeconds, 1, 3600) * SECOND)
    {
      var delay := Bounded(delaySeconds, 1, 3600);
      for i := 0 to |rows|
        invariant |rows| == |old(rows)|
        invariant forall j :: 0 <= j < i ==> rows[j] == RescheduledRow(old(rows)[j], id, code, delaySeconds, now)
        invariant forall j :: i <= j < |rows| ==> rows[j] == old(rows)[j]
      {
        if rows[i].id == id && rows[i].deliveredAt.None? {
          rows := rows[i := rows[i].(lockedAt := None, notBefore := now + delay * SECOND,
                                            lastError := Some(SafeCode(code)))];
        }
      }
    }
  }

  /** What the outside world does with one record: signing fails, sending fails with a code, or the site accepts it. */
  datatype Attempt = SigningFails | SendingFails(code: string) | Accepted

  function Written(r: Row, record: Row, attempt: Attempt, now: int): Row {
    match attempt
    case SigningFails => RescheduledRow(r, record.id, "signing.failed", Backoff(record.attempts), now)
    case SendingFails(code) => RescheduledRow(r, record.id, code, Backoff(record.attempts), now)
    case Accepted => DeliveredRow(r, record.id, now)
  }

  /** The outbox row after the outcomes of the first n records are written, in order. */
  function WrittenAll(r: Row, records: seq<Row>, world: nat -> Attempt, clock: nat -> int, n: nat): Row
    requires n <= |records|
  {
    if n == 0 then r
    else Written(WrittenAll(r, records, world, clock, n - 1), records[n - 1], world(n - 1), clock(n - 1))
  }

  function AcceptedCount(world: nat -> Attempt, n: nat): nat {
    if n == 0 then 0 else AcceptedCount(world, n - 1) + (if world(n - 1).Accepted? then 1 else 0)
  }

  lemma {:induction false} AcceptedIsCardinality(world: nat -> Attempt, n: nat)
    ensures AcceptedCount(world, n) == |set k: nat | k < n && world(k).Accepted?|
  {
    if n > 0 {
      AcceptedIsCardinality(world, n - 1);
      var fewer := set k: nat | k < n - 1 && world(k).Accepted?;
      assert (set k: nat | k < n && world(k).Accepted?) == fewer + (if world(n - 1).Accepted? then {n - 1} else {});
    }
  }

  class RevocationWorker {
    const outbox: PostgresRevocationOutbox

    constructor (outbox: PostgresRevocationOutbox)
      ensures this.outbox == outbox
    {
      this.outbox := outbox;
    }

    /** One pass; `world` and `clock` say what happens to the k-th record and when its outcome is written. */
    method RunOnce(limit: int, now: int, held: set<int>, world: nat -> Attempt, clock: nat -> int)
      returns (delivered: nat, deferred: nat)
      modifies outbox
      ensures var claimed := ClaimRows(old(outbox.rows), Bounded(limit, 1, 100), now, held);
        var records := ClaimedRecords(old(outbox.rows), Bounded(limit, 1, 100), now, held);
        && delivered == AcceptedCount(world, |records|)
        && delivered == |set k: nat | k < |records| && world(k).Accepted?|
        && delivered + deferred == |records|
        && |outbox.rows| == |claimed|
        && forall i :: 0 <= i < |claimed| ==> outbox.rows[i] == WrittenAll(claimed[i], records, world, clock, |records|)
    {
      var records := outbox.Claim(limit, now, held);
      ghost var claimed := outbox.rows;
      delivered, deferred := 0, 0;
      for k := 0 to |records|
        invariant delivered == AcceptedCount(world, k) && delivered + deferred == k
        invariant |outbox.rows| == |claimed|
        invariant forall i :: 0 <= i < |claimed| ==> outbox.rows[i] == WrittenAll(claimed[i], records, world, clock, k)
      {
        var record := records[k];
        var attempt := world(k);
        if attempt.SigningFails? {
          outbox.Reschedule(record.id, "signing.failed", Backoff(record.attempts), clock(k));
          deferred := deferred + 1;
          continue;
        }
        if attempt.Accepted? {
          outbox.MarkDelivered(record.id, clock(k));
          delivered := delivered + 1;
        } else {
          outbox.Reschedule(record.id, attempt.code, Backoff(record.attempts), clock(k));
          deferred := deferred + 1;
        }
      }
      AcceptedIsCardinality(world, |records|);
    }
  }

  ghost predicate UniqueIds(rows: seq<Row>) {
    forall i, j :: 0 <= i < j < |rows| ==> rows[i].id != rows[j].id
  }

  lemma {:induction false} RecordsAreRows(rows: seq<Row>, limit: nat, now: int, held: set<int>, k: nat) returns (i: nat)
    requires k < |ClaimedRecords(rows, limit, now, held)|
    ensures k <= i < |rows| && Free(rows[i], now, held)
    ensures ClaimedRecords(rows, limit, now, held)[k] == ClaimedRow(rows[i], now)
    ensures ClaimRows(rows, limit, now, held)[i] == ClaimedRow(rows[i], now)
  {
    if limit > 0 && Free(rows[0], now, held) {
      if k == 0 {
        i := 0;
      } else {
        i := RecordsAreRows(rows[1..], limit - 1, now, held, k - 1);
        i := i + 1;
      }
    } else {
      i := RecordsAreRows(rows[1..], limit, now, held, k);
      i := i + 1;
    }
  }

  lemma {:induction false} RecordsDistinct(rows: seq<Row>, limit: nat, now: int, held: set<int>)
    requires UniqueIds(rows)
    ensures UniqueIds(ClaimedRecords(rows, limit, now, held))
  {
    if rows != [] {
      var taken := limit > 0 && Free(rows[0], now, held);
      var rest := if taken then limit - 1 else limit;
      RecordsDistinct(rows[1..], rest, now, held);
      var tail := ClaimedRecords(rows[1..], rest, now, held);
      forall k | 0 <= k < |tail| ensures tail[k].id != rows[0].id {
        var i := RecordsAreRows(rows[1..], rest, now, held, k);
        assert rows[i + 1].id != rows[0].id;
      }
    }
  }

  /** Only the outcomes of records with a row's id touch it. */
  lemma {:induction false} OthersUntouched(r: Row, records: seq<Row>, world: nat -> Attempt, clock: nat -> int, n: nat)
    requires n <= |records| && forall k :: 0 <= k < n ==> records[k].id != r.id
    ensures WrittenAll(r, records, world, clock, n) == r
  {
    if n > 0 {
      OthersUntouched(r, records, world, clock, n - 1);
    }
  }

  /**
    Every claimed record gets exactly one outcome, its own: delivered exactly when
    the site accepted it, else released and put off by 2^min(attempts, 11) seconds.
  */
  lemma {:induction false} OneOutcomePerRecord(r: Row, records: seq<Row>, world: nat -> Attempt, clock: nat -> int,
                                               k: nat, n: nat)
    requires UniqueIds(records) && k < n <= |records| && r == records[k] && r.deliveredAt.None?
    ensures var s := WrittenAll(r, records, world, clock, n);
      && s.lockedAt.None? && s.id == r.id && s.attempts == r.attempts
      && (s.deliveredAt.Some? <==> world(k).Accepted?)
      && (s.deliveredAt.Some? ==> s.deliveredAt.value == clock(k))
      && (s.deliveredAt.None? ==> s.notBefore == clock(k) + Pow2(Capped(r.attempts)) * SECOND)
      && s.lastError == (match world(k)
                         case SigningFails => Some("signing.failed")
                         case SendingFails(code) => Some(if ErrorCode(code) then code else "delivery_failed")
                         case Accepted => None)
  {
    ClampIsIdle(r.attempts);
    SafeCodeMeaning("signing.failed");
    if n == k + 1 {
      OthersUntouched(r, records, world, clock, k);
    } else {
      OneOutcomePerRecord(r, records, world, clock, k, n - 1);
    }
  }
}
