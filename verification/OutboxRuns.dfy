/** Whole runs of the revocation outbox under any number of interleaved workers. */
module OutboxRuns {
  import opened Prelude
  import opened RevocationOutbox

  datatype Op =
    | Emit(id: int, resource: string, now: int)
    | Claim(limit: nat, held: set<int>, now: int)
    | Deliver(id: int, now: int)
    | Defer(id: int, code: string, delaySeconds: int, now: int)

  function Next(rows: seq<Row>, op: Op): seq<Row> {
    match op
    case Emit(id, resource, now) => rows + [Row(id, resource, now, 0, None, None, None)]
    case Claim(limit, held, now) => ClaimRows(rows, limit, now, held)
    case Deliver(id, now) => MarkRows(rows, id, now)
    case Defer(id, code, delaySeconds, now) => RescheduleRows(rows, id, code, delaySeconds, now)
  }

  function Run(rows: seq<Row>, ops: seq<Op>): seq<Row> {
    if ops == [] then rows else Next(Run(rows, ops[..|ops| - 1]), ops[|ops| - 1])
  }

  /** The step is a claim, and it takes row i. */
  predicate Takes(rows: seq<Row>, op: Op, i: nat)
    requires i < |rows|
  {
    op.Claim? && ClaimRows(rows, op.limit, op.now, op.held)[i] != rows[i]
  }

  lemma {:induction false} ClaimPointwise(rows: seq<Row>, limit: nat, now: int, held: set<int>, i: nat)
    requires i < |rows|
    ensures ClaimRows(rows, limit, now, held)[i] != rows[i] ==>
      Free(rows[i], now, held) && ClaimRows(rows, limit, now, held)[i] == ClaimedRow(rows[i], now)
  {
    if i > 0 {
      ClaimPointwise(rows[1..], if limit > 0 && Free(rows[0], now, held) then limit - 1 else limit, now, held, i - 1);
    }
  }

  lemma {:induction false} RunGrows(rows: seq<Row>, ops: seq<Op>)
    ensures |rows| <= |Run(rows, ops)|
    ensures forall i :: 0 <= i < |rows| ==> Run(rows, ops)[i].id == rows[i].id
  {
    if ops != [] {
      var k := |ops| - 1;
      RunGrows(rows, ops[..k]);
      var before := Run(rows, ops[..k]);
      forall i | 0 <= i < |rows| ensures Run(rows, ops)[i].id == rows[i].id {
        if ops[k].Claim? {
          ClaimPointwise(before, ops[k].limit, ops[k].now, ops[k].held, i);
        }
      }
    }
  }

  // --------------------------------------------------------------- delivery

  /** A delivered row is never claimed or altered again. */
  lemma {:induction false} DeliveredIsFinal(rows: seq<Row>, ops: seq<Op>, i: nat)
    requires i < |rows| && rows[i].deliveredAt.Some?
    ensures i < |Run(rows, ops)| && Run(rows, ops)[i] == rows[i]
  {
    if ops != [] {
      var k := |ops| - 1;
      DeliveredIsFinal(rows, ops[..k], i);
      if ops[k].Claim? {
        ClaimPointwise(Run(rows, ops[..k]), ops[k].limit, ops[k].now, ops[k].held, i);
      }
    }
  }

  /** No step of the run takes row i or reschedules it. */
  ghost predicate LeftAlone(rows: seq<Row>, ops: seq<Op>, i: nat)
    requires i < |rows|
  {
    ops == [] ||
    var k := |ops| - 1;
    && LeftAlone(rows, ops[..k], i)
    && i < |Run(rows, ops[..k])|
    && !Takes(Run(rows, ops[..k]), ops[k], i)
    && !(ops[k].Defer? && ops[k].id == rows[i].id)
  }

  /** A taken row that is left alone keeps its lock or is delivered. */
  lemma {:induction false} LockHeld(rows: seq<Row>, ops: seq<Op>, i: nat, since: int)
    requires i < |rows| && rows[i].lockedAt == Some(since) && LeftAlone(rows, ops, i)
    ensures i < |Run(rows, ops)|
    ensures Run(rows, ops)[i].deliveredAt.Some? || Run(rows, ops)[i] == rows[i]
  {
    if ops != [] {
      var k := |ops| - 1;
      LockHeld(rows, ops[..k], i, since);
      RunGrows(rows, ops[..k]);
    }
  }

  /**
    Two claims of one row with neither a claim nor a reschedule of it between
    them are more than two minutes apart.
  */
  lemma LeasesDoNotOverlap(rows: seq<Row>, first: Op, taken: seq<Row>, ops: seq<Op>, second: Op, i: nat)
    requires i < |rows| && Takes(rows, first, i) && taken == Next(rows, first)
    requires LeftAlone(taken, ops, i) && i < |Run(taken, ops)| && Takes(Run(taken, ops), second, i)
    ensures second.now > first.now + LEASE
  {
    ClaimPointwise(rows, first.limit, first.now, first.held, i);
    LockHeld(taken, ops, i, first.now);
    ClaimPointwise(Run(taken, ops), second.limit, second.now, second.held, i);
  }

  /**
    A row whose worker died: until it is delivered or put off, a claim with room
    for it takes it again exactly when more than two minutes have passed, unless
    its twenty attempts are used up or another transaction holds it.
  */
  lemma AbandonedIsClaimedAgain(rows: seq<Row>, first: Op, taken: seq<Row>, ops: seq<Op>, second: Op, i: nat)
    requires i < |rows| && Takes(rows, first, i) && taken == Next(rows, first) && LeftAlone(taken, ops, i)
    requires i < |Run(taken, ops)| && Run(taken, ops)[i].deliveredAt.None?
    requires second.Claim? && rows[i].id !in second.held && rows[i].attempts < 19
    requires |ClaimedRecords(Run(taken, ops), second.limit, second.now, second.held)| < second.limit
    ensures Run(taken, ops)[i] == rows[i].(lockedAt := Some(first.now), attempts := rows[i].attempts + 1)
    ensures Next(Run(taken, ops), second)[i] != Run(taken, ops)[i] <==> second.now - first.now > 120_000_000
  {
    ClaimTakesDue(rows, first.limit, first.now, first.held);
    LockHeld(taken, ops, i, first.now);
    ClaimTakesDue(Run(taken, ops), second.limit, second.now, second.held);
  }

  /** The first claim of a row that nobody ever locked: a claim with room takes it exactly once it is due. */
  lemma NewIsClaimedWhenDue(rows: seq<Row>, claim: Op, i: nat)
    requires i < |rows| && claim.Claim? && rows[i].deliveredAt.None? && rows[i].lockedAt.None?
    requires rows[i].id !in claim.held && rows[i].attempts < 20
    requires |ClaimedRecords(rows, claim.limit, claim.now, claim.held)| < claim.limit
    ensures Next(rows, claim)[i] != rows[i] <==> rows[i].notBefore <= claim.now
  {
    ClaimTakesDue(rows, claim.limit, claim.now, claim.held);
  }

  // ---------------------------------------------------------------- measure

  /** Claims still possible: twenty minus the attempts made, over the rows not delivered. */
  function Budget(rows: seq<Row>): int {
    if rows == [] then 0
    else Budget(rows[1..]) + (if rows[0].deliveredAt.None? then MAX_ATTEMPTS - rows[0].attempts else 0)
  }

  ghost predicate Capped20(rows: seq<Row>) {
    forall r :: r in rows ==> r.attempts <= MAX_ATTEMPTS
  }

  lemma {:induction false} BudgetAppend(a: seq<Row>, b: seq<Row>)
    ensures Budget(a + b) == Budget(a) + Budget(b)
  {
    if a == [] {
      assert a + b == b;
    } else {
      BudgetAppend(a[1..], b);
      assert (a + b)[1..] == a[1..] + b;
    }
  }

  /** A claim spends exactly one unit of the budget for each record it returns. */
  lemma {:induction false} ClaimSpends(rows: seq<Row>, limit: nat, now: int, held: set<int>)
    ensures Budget(ClaimRows(rows, limit, now, held)) == Budget(rows) - |ClaimedRecords(rows, limit, now, held)|
    ensures Capped20(rows) ==> Capped20(ClaimRows(rows, limit, now, held))
  {
    if rows != [] {
      ClaimSpends(rows[1..], if limit > 0 && Free(rows[0], now, held) then limit - 1 else limit, now, held);
      assert rows[0] in rows && forall r :: r in rows[1..] ==> r in rows;
    }
  }

  /** Writing outcomes never adds to the budget. */
  lemma {:induction false} OutcomeSpends(rows: seq<Row>, written: seq<Row>)
    requires |written| == |rows|
    requires forall i :: 0 <= i < |rows| ==> written[i].attempts == rows[i].attempts
    requires forall i :: 0 <= i < |rows| && rows[i].deliveredAt.Some? ==> written[i].deliveredAt.Some?
    requires Capped20(rows)
    ensures Budget(written) <= Budget(rows) && Capped20(written)
  {
    if rows != [] {
      assert rows[0] in rows && forall r :: r in rows[1..] ==> r in rows;
      OutcomeSpends(rows[1..], written[1..]);
      assert written == [written[0]] + written[1..];
    }
  }

  /** Records returned by all claims of a run. */
  function TotalClaims(rows: seq<Row>, ops: seq<Op>): nat {
    if ops == [] then 0
    else
      var k := |ops| - 1;
      TotalClaims(rows, ops[..k])
        + (if ops[k].Claim? then |ClaimedRecords(Run(rows, ops[..k]), ops[k].limit, ops[k].now, ops[k].held)| else 0)
  }

  lemma {:induction false} BudgetAccounts(rows: seq<Row>, ops: seq<Op>)
    requires Capped20(rows)
    ensures Capped20(Run(rows, ops))
    ensures TotalClaims(rows, ops) + Budget(Run(rows, ops)) <= Budget(rows) + MAX_ATTEMPTS * (|Run(rows, ops)| - |rows|)
  {
    if ops != [] {
      var k := |ops| - 1;
      BudgetAccounts(rows, ops[..k]);
      var before := Run(rows, ops[..k]);
      match ops[k]
      case Emit(id, resource, now) =>
        var row := Row(id, resource, now, 0, None, None, None);
        BudgetAppend(before, [row]);
        assert Budget([row]) == MAX_ATTEMPTS;
      case Claim(limit, held, now) => ClaimSpends(before, limit, now, held);
      case Deliver(_, _) => OutcomeSpends(before, Run(rows, ops));
      case Defer(_, _, _, _) => OutcomeSpends(before, Run(rows, ops));
    }
  }

  lemma {:induction false} BudgetBounds(rows: seq<Row>)
    requires Capped20(rows)
    ensures 0 <= Budget(rows)
  {
    if rows != [] {
      assert rows[0] in rows && forall r :: r in rows[1..] ==> r in rows;
      BudgetBounds(rows[1..]);
    }
  }

  /** However workers interleave, all claims together return at most twenty records per event. */
  lemma TotalClaimsBounded(ops: seq<Op>)
    ensures TotalClaims([], ops) <= MAX_ATTEMPTS * |Run([], ops)|
  {
    BudgetAccounts([], ops);
    BudgetBounds(Run([], ops));
  }

  /** How often a run claims row i. */
  function ClaimsOf(rows: seq<Row>, ops: seq<Op>, i: nat): nat
    requires i < |rows|
  {
    if ops == [] then 0
    else
      var k := |ops| - 1;
      ClaimsOf(rows, ops[..k], i)
        + (if i < |Run(rows, ops[..k])| && Takes(Run(rows, ops[..k]), ops[k], i) then 1 else 0)
  }

  /** A row's attempt counter counts exactly its claims, and never passes twenty. */
  lemma {:induction false} AttemptsCountClaims(rows: seq<Row>, ops: seq<Op>, i: nat)
    requires i < |rows| && rows[i].attempts <= MAX_ATTEMPTS
    ensures i < |Run(rows, ops)|
    ensures Run(rows, ops)[i].attempts == rows[i].attempts + ClaimsOf(rows, ops, i) <= MAX_ATTEMPTS
  {
    if ops != [] {
      var k := |ops| - 1;
      AttemptsCountClaims(rows, ops[..k], i);
      if ops[k].Claim? {
        ClaimPointwise(Run(rows, ops[..k]), ops[k].limit, ops[k].now, ops[k].held, i);
      }
    }
  }

  // ---------------------------------------------------------------- backoff

  /** Seconds of backoff after the first n attempts. */
  function BackoffSum(n: nat): int {
    if n == 0 then 0 else BackoffSum(n - 1) + Pow2(Capped(n))
  }

  /** The worker that holds row i defers it by its own backoff, no earlier than it claimed it, and no lock is stolen. */
  ghost predicate Disciplined(row: Row, op: Op, takes: bool) {
    && (takes ==> row.lockedAt.None?)
    && (op.Defer? && op.id == row.id ==>
          row.lockedAt.Some? && op.now >= row.lockedAt.value && op.delaySeconds == Backoff(row.attempts))
  }

  /** How far the row's clock must have advanced since its first claim. */
  ghost predicate Paced(row: Row, first: int) {
    && row.attempts >= 1
    && (row.deliveredAt.None? ==>
          match row.lockedAt
          case None => row.notBefore >= first + BackoffSum(row.attempts) * SECOND
          case Some(at) => at >= first + BackoffSum(row.attempts - 1) * SECOND)
  }

  lemma StepKeepsPace(rows: seq<Row>, op: Op, i: nat, first: int)
    requires i < |rows| && Paced(rows[i], first) && Disciplined(rows[i], op, Takes(rows, op, i))
    ensures i < |Next(rows, op)| && Paced(Next(rows, op)[i], first)
  {
    match op
    case Claim(limit, held, now) => ClaimPointwise(rows, limit, now, held, i);
    case Defer(_, _, _, _) => ClampIsIdle(rows[i].attempts);
    case _ =>
  }

  ghost predicate AlwaysDisciplined(rows: seq<Row>, ops: seq<Op>, i: nat) {
    ops == [] ||
    var k := |ops| - 1;
    && AlwaysDisciplined(rows, ops[..k], i)
    && i < |Run(rows, ops[..k])|
    && Disciplined(Run(rows, ops[..k])[i], ops[k], Takes(Run(rows, ops[..k]), ops[k], i))
  }

  lemma {:induction false} RunKeepsPace(rows: seq<Row>, ops: seq<Op>, i: nat, first: int)
    requires i < |rows| && Paced(rows[i], first) && AlwaysDisciplined(rows, ops, i)
    ensures i < |Run(rows, ops)| && Paced(Run(rows, ops)[i], first)
  {
    if ops != [] {
      var k := |ops| - 1;
      RunKeepsPace(rows, ops[..k], i, first);
      StepKeepsPace(Run(rows, ops[..k]), ops[k], i, first);
    }
  }

  lemma {:induction false} LateBackoff(n: nat)
    requires n >= 11
    ensures BackoffSum(n) == BackoffSum(11) + 2048 * (n - 11)
  {
    if n > 11 {
      LateBackoff(n - 1);
      assert Pow2(11) == 2048;
    }
  }

  /**
    If every claim of a row ends in a reschedule, its n-th claim comes no earlier
    than the sum of the backoffs before it; the twentieth at least 20478 seconds
    after the first.
  */
  lemma BackoffSpacing(rows: seq<Row>, first: Op, taken: seq<Row>, ops: seq<Op>, i: nat)
    requires i < |rows| && rows[i].attempts == 0 && Takes(rows, first, i) && taken == Next(rows, first)
    requires AlwaysDisciplined(taken, ops, i)
    ensures i < |Run(taken, ops)| && Run(taken, ops)[i].attempts >= 1
    ensures var row := Run(taken, ops)[i];
      row.lockedAt.Some? && row.deliveredAt.None? ==>
        && row.lockedAt.value >= first.now + BackoffSum(row.attempts - 1) * SECOND
        && (row.attempts == MAX_ATTEMPTS ==> row.lockedAt.value >= first.now + 20_478 * SECOND)
  {
    ClaimPointwise(rows, first.limit, first.now, first.held, i);
    RunKeepsPace(taken, ops, i, first.now);
    LateBackoff(MAX_ATTEMPTS - 1);
    assert BackoffSum(11) == 4094;
  }
}
