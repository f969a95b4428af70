/**
  Every provider send is traced to the claim call that allowed it and to the
  reserve call that paid for it, and counted by the clock of the claim.
*/
module OtpSendClaims {
  import opened Prelude
  import opened OtpSendQuota
  import opened OtpSendBudget
  import opened OtpSendRuns

  /** The row was stored by an earlier reserve for its recipient, at that call's whole millisecond. */
  ghost predicate PaidBy(ops: seq<Op>, r: Row) {
    exists j :: 0 <= j < |ops| && PaidAt(ops[j], r)
  }

  predicate PaidAt(op: Op, r: Row) {
    op.Reserve? && op.id == r.id && op.recipient == r.recipient && r.reservedAt == op.clock - op.clock % 1000
  }

  lemma PaidLater(ops: seq<Op>, more: Op, r: Row)
    requires PaidBy(ops, r)
    ensures PaidBy(ops + [more], r)
  {
    var j :| 0 <= j < |ops| && PaidAt(ops[j], r);
    assert (ops + [more])[j] == ops[j];
  }

  /** A reserve stores at most one new row, its own. */
  lemma ReserveAdds(l: Limits, rows: seq<Row>, op: Op, retention: Option<int>, r: Row)
    requires ValidLimits(l) && op.Reserve?
    requires r in ReserveStep(l, rows, op.recipient, op.clock, op.id, retention).0
    ensures r in rows || PaidAt(op, r)
  {
    if retention.Some? {
      SelectMembers(rows, Probe(None, Millis(op.clock) - retention.value, None));
    }
  }

  /** The rows after an update are the rows before it, but for the columns that claims and finishes write. */
  lemma UpdatedRow(rows: seq<Row>, updated: seq<Row>, r: Row) returns (was: Row)
    requires |updated| == |rows| && r in updated
    requires forall i :: 0 <= i < |rows| ==>
      updated[i].(attemptedAt := None, outcome := Reserved) == rows[i].(attemptedAt := None, outcome := Reserved)
    ensures was in rows && was.id == r.id && was.recipient == r.recipient && was.reservedAt == r.reservedAt
  {
    var i :| 0 <= i < |updated| && updated[i] == r;
    was := rows[i];
    assert r.(attemptedAt := None, outcome := Reserved).id == r.id;
  }

  lemma StepKeepsPaid(l: Limits, s: State, ops: seq<Op>, op: Op, retention: Option<int>)
    requires ValidLimits(l) && forall r :: r in s.rows ==> PaidBy(ops, r)
    ensures forall r :: r in Next(l, s, op, retention).0.rows ==> PaidBy(ops + [op], r)
  {
    var after := Next(l, s, op, retention).0.rows;
    forall r | r in after ensures PaidBy(ops + [op], r) {
      if op.Reserve? {
        ReserveAdds(l, s.rows, op, retention, r);
        if r in s.rows {
          PaidLater(ops, op, r);
        } else {
          assert (ops + [op])[|ops|] == op;
        }
      } else {
        var was := UpdatedRow(s.rows, after, r);
        assert PaidBy(ops, was);
        var j :| 0 <= j < |ops| && PaidAt(ops[j], was);
        assert PaidAt(ops[j], r);
        PaidLater(ops, op, r);
      }
    }
  }

  lemma {:induction false} RowsArePaid(l: Limits, ops: seq<Op>, retention: Option<int>)
    requires ValidLimits(l)
    ensures forall r :: r in Run(l, ops, retention).rows ==> PaidBy(ops, r)
  {
    if ops != [] {
      var k := |ops| - 1;
      RowsArePaid(l, ops[..k], retention);
      StepKeepsPaid(l, Run(l, ops[..k], retention), ops[..k], ops[k], retention);
      assert ops == ops[..k] + [ops[k]];
    }
  }

  // ------------------------------------------------- sends and their claims

  /** The calls of a run that claimed successfully, in order. */
  function Claims(l: Limits, ops: seq<Op>): seq<nat>
    requires ValidLimits(l)
  {
    if ops == [] then []
    else
      var k := |ops| - 1;
      Claims(l, ops[..k])
        + (if ops[k].Claim? && ReplyAt(l, ops, k, Some(RETENTION)) == Claimed(true) then [k] else [])
  }

  /**
    The send follows this claim: its reservation was under a minute old at the
    claim's reading, and the attempt is stored under that reading, or under the
    reservation's own instant where the claim's clock reads less.
  */
  predicate SentBy(op: Op, send: Row) {
    && op.Claim? && op.id == send.id && send.outcome == Reserved
    && op.clock < send.reservedAt + 60_000_000
    && send.attemptedAt == Some(if op.clock < send.reservedAt then send.reservedAt else op.clock)
  }

  lemma ClaimSends(l: Limits, s: State, op: Op)
    requires ValidLimits(l) && op.Claim?
    ensures var (t, reply) := Next(l, s, op, Some(RETENTION));
      if reply == Claimed(true) then
        |t.sends| == |s.sends| + 1 && t.sends[..|s.sends|] == s.sends && SentBy(op, t.sends[|s.sends|])
        && t.sends[|s.sends|].(attemptedAt := None) in s.rows
      else t.sends == s.sends
  {
    FindClaimableMeaning(s.rows, op.id, op.clock);
    var hit := FindClaimable(s.rows, op.id, op.clock);
    if hit.Some? {
      assert Attempted(hit.value, op.clock).(attemptedAt := None) == hit.value;
    }
  }

  lemma ClaimsStep(l: Limits, ops: seq<Op>)
    requires ValidLimits(l) && ops != []
    ensures var k := |ops| - 1;
      Claims(l, ops) == Claims(l, ops[..k])
        + (if ops[k].Claim? && Next(l, Run(l, ops[..k], Some(RETENTION)), ops[k], Some(RETENTION)).1 == Claimed(true)
           then [k] else [])
  {
  }

  /** The i-th send of a run, its claim and its reservation. */
  ghost predicate Traced(ops: seq<Op>, k: nat, send: Row) {
    k < |ops| && SentBy(ops[k], send) && PaidBy(ops[..k], send)
  }

  lemma TracedLater(ops: seq<Op>, k: nat, send: Row)
    requires ops != [] && Traced(ops[..|ops| - 1], k, send)
    ensures Traced(ops, k, send)
  {
    assert ops[..|ops| - 1][..k] == ops[..k];
  }

  /**
    The sends of a run are its successful claims, one by one: each carries the
    identifier and the clock reading of its own claim, and the recipient and the
    instant of a reserve call before that claim.
  */
  lemma {:induction false} SendsAreClaims(l: Limits, ops: seq<Op>)
    requires ValidLimits(l)
    ensures |Run(l, ops, Some(RETENTION)).sends| == |Claims(l, ops)|
    ensures forall i :: 0 <= i < |Claims(l, ops)| ==>
      Traced(ops, Claims(l, ops)[i], Run(l, ops, Some(RETENTION)).sends[i])
  {
    if ops != [] {
      var k := |ops| - 1;
      var before := Run(l, ops[..k], Some(RETENTION));
      SendsAreClaims(l, ops[..k]);
      ClaimsStep(l, ops);
      if ops[k].Claim? {
        ClaimSends(l, before, ops[k]);
        RowsArePaid(l, ops[..k], Some(RETENTION));
      }
      var sends, claims := Run(l, ops, Some(RETENTION)).sends, Claims(l, ops);
      forall i | 0 <= i < |claims| ensures Traced(ops, claims[i], sends[i]) {
        if i < |before.sends| {
          TracedLater(ops, claims[i], sends[i]);
        } else {
          NewSendIsTraced(before.rows, ops[..k], ops[k], sends[i]);
          assert ops[..k] + [ops[k]] == ops;
        }
      }
    }
  }

  lemma NewSendIsTraced(rows: seq<Row>, before: seq<Op>, op: Op, send: Row)
    requires SentBy(op, send) && send.(attemptedAt := None) in rows
    requires forall r :: r in rows ==> PaidBy(before, r)
    ensures Traced(before + [op], |before|, send)
  {
    var j :| 0 <= j < |before| && PaidAt(before[j], send.(attemptedAt := None));
    assert PaidAt(before[j], send);
    assert (before + [op])[..|before|] == before;
  }

  // ------------------------------------------- the bound, by claim readings

  /** The claim's clock reads no less than the reservation's instant, and lies in the stretch. */
  predicate ReadsWithin(op: Op, send: Row, who: Option<string>, after: int, upTo: int) {
    && op.Claim? && (who == None || who == Some(send.recipient))
    && send.reservedAt <= op.clock && after < op.clock <= upTo
  }

  /** How many sends have their claim's reading in the stretch. */
  ghost function ReadingsWithin(ops: seq<Op>, claims: seq<nat>, sends: seq<Row>, who: Option<string>, after: int,
                                upTo: int): set<nat>
    requires |claims| == |sends|
  {
    set i: nat | i < |sends| && claims[i] < |ops| && ReadsWithin(ops[claims[i]], sends[i], who, after, upTo)
  }

  lemma ReadingsSnoc(ops: seq<Op>, claims: seq<nat>, sends: seq<Row>, k: nat, send: Row, who: Option<string>,
                     after: int, upTo: int)
    requires |claims| == |sends| && k < |ops|
    ensures ReadingsWithin(ops, claims + [k], sends + [send], who, after, upTo)
         == ReadingsWithin(ops, claims, sends, who, after, upTo)
            + (if ReadsWithin(ops[k], send, who, after, upTo) then {|sends|} else {})
  {
    var longer, more := claims + [k], sends + [send];
    assert forall i :: 0 <= i < |sends| ==> longer[i] == claims[i] && more[i] == sends[i];
    assert longer[|sends|] == k && more[|sends|] == send;
  }

  lemma ReadingIsAttempt(op: Op, send: Row, who: Option<string>, after: int, upTo: int)
    requires SentBy(op, send) && ReadsWithin(op, send, who, after, upTo)
    ensures HitsAttempt(send, Probe(who, after, Some(upTo)))
  {
  }

  lemma {:induction false} ReadingsAreSends(ops: seq<Op>, claims: seq<nat>, sends: seq<Row>, who: Option<string>,
                                            after: int, upTo: int)
    requires |claims| == |sends| && forall i :: 0 <= i < |sends| ==> Traced(ops, claims[i], sends[i])
    ensures |ReadingsWithin(ops, claims, sends, who, after, upTo)| <= SendCount(sends, Probe(who, after, Some(upTo)))
  {
    if sends != [] {
      var k := |sends| - 1;
      ReadingsAreSends(ops, claims[..k], sends[..k], who, after, upTo);
      assert Traced(ops, claims[k], sends[k]);
      ReadingsSnoc(ops, claims[..k], sends[..k], claims[k], sends[k], who, after, upTo);
      assert sends == sends[..k] + [sends[k]] && claims == claims[..k] + [claims[k]];
      SendCountAppend(sends[..k], [sends[k]], Probe(who, after, Some(upTo)));
      assert |ReadingsWithin(ops, claims, sends, who, after, upTo)|
        <= |ReadingsWithin(ops, claims[..k], sends[..k], who, after, upTo)|
           + (if ReadsWithin(ops[claims[k]], sends[k], who, after, upTo) then 1 else 0);
      if ReadsWithin(ops[claims[k]], sends[k], who, after, upTo) {
        ReadingIsAttempt(ops[claims[k]], sends[k], who, after, upTo);
      }
    }
  }

  lemma ClaimsAreSends(l: Limits, ops: seq<Op>, who: Option<string>, after: int, upTo: int)
    requires ValidLimits(l)
    ensures |Run(l, ops, Some(RETENTION)).sends| == |Claims(l, ops)|
    ensures |ReadingsWithin(ops, Claims(l, ops), Run(l, ops, Some(RETENTION)).sends, who, after, upTo)|
         <= SendCount(Run(l, ops, Some(RETENTION)).sends, Probe(who, after, Some(upTo)))
  {
    SendsAreClaims(l, ops);
    ReadingsAreSends(ops, Claims(l, ops), Run(l, ops, Some(RETENTION)).sends, who, after, upTo);
  }

  /** The number of sends whose claim's reading lies in the stretch, of those not behind their reservation. */
  ghost function ReadingCount(l: Limits, ops: seq<Op>, who: Option<string>, after: int, upTo: int): nat
    requires ValidLimits(l)
  {
    SendsAreClaims(l, ops);
    |ReadingsWithin(ops, Claims(l, ops), Run(l, ops, Some(RETENTION)).sends, who, after, upTo)|
  }

  lemma ReadingsAreBounded(l: Limits, ops: seq<Op>, d: Dimension, recipient: string, after: int, t: int)
    requires ValidLimits(l) && Tolerant(ops) && DistinctIds(ops) && after == t - (WindowOf(d) - MINUTE)
    ensures ReadingCount(l, ops, WhoOf(d, recipient), after, t) <= MaxOf(l, d)
  {
    ClaimsAreSends(l, ops, WhoOf(d, recipient), after, t);
    SendBound(l, ops, d, recipient, t);
  }

  /**
    By the clock of the claim that allowed it, any stretch of time one minute
    shorter than a dimension's window holds at most that dimension's limit of
    provider sends, of those whose claim's clock is not behind the reservation.
  */
  lemma SendBoundByClaims(l: Limits, ops: seq<Op>, recipient: string, t: int)
    requires ValidLimits(l) && Tolerant(ops) && DistinctIds(ops)
    ensures ReadingCount(l, ops, Some(recipient), t - 3_540_000_000, t) <= l.recipientHourlyMax
    ensures ReadingCount(l, ops, Some(recipient), t - 86_340_000_000, t) <= l.recipientDailyMax
    ensures ReadingCount(l, ops, None, t - 86_340_000_000, t) <= l.globalDailyMax
  {
    ReadingsAreBounded(l, ops, RecipientHour, recipient, t - 3_540_000_000, t);
    ReadingsAreBounded(l, ops, RecipientDay, recipient, t - 86_340_000_000, t);
    ReadingsAreBounded(l, ops, GlobalDay, recipient, t - 86_340_000_000, t);
  }
}
