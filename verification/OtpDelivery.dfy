/**
  The account service's one-time-password delivery: the hook that reserves before
  a request, the callback that claims, sends, finishes and records the outcome,
  and the outcomes that are taken once. Requests of any number interleave.
*/
module OtpDelivery {
  import opened Prelude
  import opened OtpSendQuota
  import opened OtpSendBudget
  import Q = OtpSendRuns

  const OUTCOME_TTL: int := 60_000

  /** What one request carries from the hook to the callback. */
  datatype RequestState = RequestState(email: Option<string>, reservation: Option<string>, limited: bool)

  datatype Recorded = Recorded(outcome: Outcome, expiresAt: int)

  type Outcomes = map<string, Recorded>

  function Prune(m: Outcomes, now: int): Outcomes {
    map k | k in m && m[k].expiresAt > now :: m[k]
  }

  function Record(m: Outcomes, delivery: string, outcome: Outcome, now: int): Outcomes {
    Prune(m, now)[delivery := Recorded(outcome, now + OUTCOME_TTL)]
  }

  // ------------------------------------------------------ outcomes taken once

  datatype OutcomeOp = Recording(delivery: string, outcome: Outcome, now: int) | Taking(delivery: string)

  function OutcomeStep(m: Outcomes, op: OutcomeOp): Outcomes {
    match op
    case Recording(delivery, outcome, now) => Record(m, delivery, outcome, now)
    case Taking(delivery) => m - {delivery}
  }

  function OutcomesAfter(ops: seq<OutcomeOp>): Outcomes {
    if ops == [] then map[] else OutcomeStep(OutcomesAfter(ops[..|ops| - 1]), ops[|ops| - 1])
  }

  lemma OutcomesSnoc(ops: seq<OutcomeOp>, op: OutcomeOp)
    ensures OutcomesAfter(ops + [op]) == OutcomeStep(OutcomesAfter(ops), op)
  {
    assert (ops + [op])[..|ops|] == ops;
  }

  /** The k-th call recorded an outcome for the delivery, and no later one recorded or took one for it. */
  ghost predicate LastRecorded(ops: seq<OutcomeOp>, delivery: string, k: nat) {
    && k < |ops| && ops[k].Recording? && ops[k].delivery == delivery
    && (forall j :: k < j < |ops| ==> ops[j].delivery != delivery)
  }

  /** A later recording, for whatever delivery, came at or after the outcome's minute. */
  ghost predicate Outlived(ops: seq<OutcomeOp>, k: nat)
    requires k < |ops| && ops[k].Recording?
  {
    exists j :: k < j < |ops| && ops[j].Recording? && ops[j].now - ops[k].now >= 60_000
  }

  ghost predicate Held(ops: seq<OutcomeOp>, delivery: string, k: nat) {
    LastRecorded(ops, delivery, k) && !Outlived(ops, k)
  }

  /**
    A delivery's outcome can be taken exactly when it was recorded, neither taken
    nor replaced since, and not yet pruned by a later recording; what is taken is
    the outcome last recorded. So a recorded outcome is taken at most once.
  */
  lemma {:induction false} OutcomeIsTakenOnce(ops: seq<OutcomeOp>, delivery: string)
    ensures delivery in OutcomesAfter(ops) <==> exists k: nat :: Held(ops, delivery, k)
    ensures forall k: nat :: Held(ops, delivery, k) ==>
      delivery in OutcomesAfter(ops)
        && OutcomesAfter(ops)[delivery] == Recorded(ops[k].outcome, ops[k].now + OUTCOME_TTL)
  {
    if ops != [] {
      var m := |ops| - 1;
      OutcomeIsTakenOnce(ops[..m], delivery);
      if ops[m].delivery != delivery {
        forall k: nat ensures Held(ops, delivery, k) <==>
          Held(ops[..m], delivery, k) && (ops[m].Recording? ==> ops[m].now < ops[k].now + OUTCOME_TTL)
        {
          HeldLonger(ops, delivery, k);
        }
      } else if ops[m].Recording? {
        assert Held(ops, delivery, m);
      }
    }
  }

  lemma HeldLonger(ops: seq<OutcomeOp>, delivery: string, k: nat)
    requires ops != [] && ops[|ops| - 1].delivery != delivery
    ensures var m := |ops| - 1;
      Held(ops, delivery, k) <==>
        Held(ops[..m], delivery, k) && (ops[m].Recording? ==> ops[m].now < ops[k].now + OUTCOME_TTL)
  {
    var m := |ops| - 1;
    if k < m && ops[k].Recording? {
      if Outlived(ops[..m], k) {
        var j :| k < j < m && ops[..m][j].Recording? && ops[..m][j].now >= ops[k].now + OUTCOME_TTL;
        assert ops[j].Recording?;
      }
      if Outlived(ops, k) && !(ops[m].Recording? && ops[m].now >= ops[k].now + OUTCOME_TTL) {
        var j :| k < j < |ops| && ops[j].Recording? && ops[j].now >= ops[k].now + OUTCOME_TTL;
        assert ops[..m][j] == ops[j];
      }
      assert LastRecorded(ops, delivery, k) <==> LastRecorded(ops[..m], delivery, k) by {
        assert forall j :: 0 <= j < m ==> ops[..m][j] == ops[j];
      }
    }
  }

  // ------------------------------------------------------------ the service

  class AccountAuth {
    const quota: PostgresOtpSendQuota
    const normal: string -> Option<string>
    var outcomes: Outcomes
    ghost var history: seq<OutcomeOp>

    /** The outcomes held are what the recordings and takings so far leave. */
    ghost predicate Tracked()
      reads this`outcomes, this`history
    {
      outcomes == OutcomesAfter(history)
    }

    constructor (quota: PostgresOtpSendQuota, normal: string -> Option<string>)
      ensures this.quota == quota && this.normal == normal && outcomes == map[] && history == [] && Tracked()
    {
      this.quota := quota;
      this.normal := normal;
      outcomes := map[];
      history := [];
    }

    /** The hook: an invalid email is refused before anything is reserved; a denial reserves nothing. */
    method Before(body: string, clock: int, id: string) returns (result: Result<RequestState>, limited: bool)
      requires ValidLimits(quota.limits) && UniqueIds(quota.rows)
      modifies quota`rows
      ensures UniqueIds(quota.rows)
      ensures normal(body).None? ==> quota.rows == old(quota.rows) && result.Err? && !limited
      ensures normal(body).Some? ==>
        var (rows, answer) := ReserveStep(quota.limits, old(quota.rows), normal(body).value, clock, id,
                                          Some(RETENTION));
        && quota.rows == rows
        && (limited <==> answer.Denied?)
        && (if answer.Allowed? then result == Ok(RequestState(normal(body), Some(answer.id), false)) else result.Err?)
    {
      limited := false;
      var email := normal(body);
      if email.None? {
        return Err("otp_send_invalid"), false;
      }
      ReserveKeepsUnique(quota.limits, quota.rows, email.value, clock, id);
      var reservation := quota.Reserve(email.value, clock, id);
      match reservation {
        case Unavailable => result := Err("otp_send_unavailable");
        case Denied(_, _) =>
          limited := true;
          result := Err("otp_send_limited");
        case Allowed(granted) => result := Ok(RequestState(email, Some(granted), false));
      }
    }

    /**
      The callback: `answer` is what the provider answers if it is called, `late` the clock after that.
      The provider is called exactly when the request's own reservation is claimed for its own email.
    */
    method SendVerificationOtp(email: string, delivery: Option<string>, state: RequestState, clock: int,
                               answer: Outcome, late: int)
      returns (result: Result<()>, called: bool)
      requires !answer.Reserved? && UniqueIds(quota.rows) && Tracked()
      modifies this`outcomes, this`history, quota`rows
      ensures UniqueIds(quota.rows) && Tracked()
      ensures !called ==> history == old(history)
      ensures called <==>
        && delivery.Some? && state.reservation.Some? && normal(email).Some? && state.email == normal(email)
        && exists r :: r in old(quota.rows) && Claimable(r, state.reservation.value, clock)
      ensures !called ==> result.Err? && outcomes == old(outcomes) && quota.rows == old(quota.rows)
      ensures called ==>
        && quota.rows == FinishRows(ClaimRows(old(quota.rows), state.reservation.value, clock), state.reservation.value,
                                    answer)
        && outcomes == Record(old(outcomes), delivery.value, answer, late)
        && history == old(history) + [Recording(delivery.value, answer, late)]
        && (result.Err? <==> answer.Rejected?)
    {
      called := false;
      if delivery.None? {
        return Err("otp_delivery_context_missing"), false;
      }
      if state.reservation.None? || normal(email).None? || state.email != normal(email) {
        return Err("otp_send_reservation_missing"), false;
      }
      var claimed := quota.Claim(state.reservation.value, clock);
      if !claimed {
        assert quota.rows == old(quota.rows);
        return Err("otp_send_unavailable"), false;
      }
      called := true;
      var finished := quota.Finish(state.reservation.value, answer);
      PruneOutcomes(late);
      outcomes := outcomes[delivery.value := Recorded(answer, late + OUTCOME_TTL)];
      OutcomesSnoc(history, Recording(delivery.value, answer, late));
      history := history + [Recording(delivery.value, answer, late)];
      result := if answer.Rejected? then Err("otp_delivery_rejected") else Ok(());
    }

    /** Deletes the expired outcomes one by one. */
    method PruneOutcomes(now: int)
      modifies this`outcomes
      ensures outcomes == Prune(old(outcomes), now)
    {
      var keys := outcomes.Keys;
      while keys != {}
        invariant keys <= outcomes.Keys <= old(outcomes.Keys)
        invariant forall k :: k in outcomes ==> outcomes[k] == old(outcomes)[k]
        invariant forall k :: k in old(outcomes) && k !in keys ==> (k in outcomes <==> old(outcomes)[k].expiresAt > now)
        decreases keys
      {
        var key :| key in keys;
        if outcomes[key].expiresAt <= now {
          outcomes := outcomes - {key};
        }
        keys := keys - {key};
      }
    }

    /** Hands out the delivery's outcome and forgets it; `OutcomeIsTakenOnce` says when there is one. */
    method TakeDeliveryOutcome(delivery: string) returns (outcome: Option<Outcome>)
      requires Tracked()
      modifies this`outcomes, this`history
      ensures Tracked() && history == old(history) + [Taking(delivery)]
      ensures outcome.Some? <==> exists k: nat :: Held(old(history), delivery, k)
      ensures forall k: nat :: Held(old(history), delivery, k) ==> outcome == Some(old(history)[k].outcome)
      ensures outcomes == old(outcomes) - {delivery}
    {
      OutcomeIsTakenOnce(history, delivery);
      outcome := if delivery in outcomes then Some(outcomes[delivery].outcome) else None;
      outcomes := outcomes - {delivery};
      OutcomesSnoc(history, Taking(delivery));
      history := history + [Taking(delivery)];
    }
  }

  // ------------------------------------------------------------------- runs

  /** A provider call: the address, its idempotency key, and which successful claim it follows. */
  datatype Sent = Sent(email: string, key: string, claim: nat)

  /** The calls on the send budget so far, every request's state, and every provider call. */
  datatype World = World(calls: seq<Q.Op>, requests: map<nat, RequestState>, sent: seq<Sent>)

  datatype Op =
    | Before(request: nat, body: string, clock: int, id: string)
    | Send(request: nat, email: string, acknowledged: bool, clock: int)
    | Settle(request: nat, outcome: Outcome)

  function Table(l: Limits, calls: seq<Q.Op>): Q.State
    requires ValidLimits(l)
  {
    Q.Run(l, calls, Some(RETENTION))
  }

  function Next(l: Limits, normal: string -> Option<string>, w: World, op: Op): World
    requires ValidLimits(l)
  {
    match op
    case Before(request, body, clock, id) =>
      if request in w.requests || normal(body).None? then w
      else
        var call := Q.Reserve(normal(body).value, clock, id);
        var reply := Q.Next(l, Table(l, w.calls), call, Some(RETENTION)).1;
        var state := if reply.reservation.Allowed? then RequestState(normal(body), Some(reply.reservation.id), false)
                     else RequestState(None, None, reply.reservation.Denied?);
        w.(calls := w.calls + [call], requests := w.requests[request := state])
    case Send(request, email, acknowledged, clock) =>
      if request !in w.requests || w.requests[request].reservation.None? || normal(email).None?
         || w.requests[request].email != normal(email)
      then w
      else
        var key := w.requests[request].reservation.value;
        var call := Q.Claim(key, clock);
        var reply := Q.Next(l, Table(l, w.calls), call, Some(RETENTION)).1;
        w.(calls := w.calls + [call],
           sent := if reply.ok && acknowledged then w.sent + [Sent(email, key, |Table(l, w.calls).sends|)] else w.sent)
    case Settle(request, outcome) =>
      if request !in w.requests || w.requests[request].reservation.None? then w
      else w.(calls := w.calls + [Q.Finish(w.requests[request].reservation.value, outcome)])
  }

  /**
    A new request for a valid address asks the budget once, for the normalised
    address; it then holds that address and the identifier granted, or neither. Any
    other changes nothing.
  */
  lemma BeforeMeaning(l: Limits, normal: string -> Option<string>, w: World, op: Op)
    requires ValidLimits(l) && op.Before?
    ensures var v := Next(l, normal, w, op);
      if op.request !in w.requests && normal(op.body).Some? then
        var call := Q.Reserve(normal(op.body).value, op.clock, op.id);
        && v.calls == w.calls + [call] && v.sent == w.sent
        && v.requests.Keys == w.requests.Keys + {op.request}
        && (forall q :: q in w.requests ==> v.requests[q] == w.requests[q])
        && var state := v.requests[op.request];
          if Q.Next(l, Table(l, w.calls), call, Some(RETENTION)).1 == Q.Answer(Allowed(op.id))
          then state.email == normal(op.body) && state.reservation == Some(op.id)
          else state.email == None && state.reservation == None
      else v == w
  {
    if normal(op.body).Some? {
      ReservedId(l, w.calls, Q.Reserve(normal(op.body).value, op.clock, op.id));
    }
  }

  /**
    The provider is called exactly for a request that holds a reservation for this
    very address, whose claim succeeds and is acknowledged; the call carries the
    address and the reservation.
  */
  lemma SendMeaning(l: Limits, normal: string -> Option<string>, w: World, op: Op)
    requires ValidLimits(l) && op.Send?
    ensures var v := Next(l, normal, w, op);
      if op.request in w.requests && w.requests[op.request].reservation.Some? && normal(op.email).Some?
         && w.requests[op.request].email == normal(op.email)
         && Q.Next(l, Table(l, w.calls), Q.Claim(w.requests[op.request].reservation.value, op.clock),
                   Some(RETENTION)).1 == Q.Claimed(true)
         && op.acknowledged
      then |v.sent| == |w.sent| + 1 && v.sent[..|w.sent|] == w.sent && v.sent[|w.sent|].email == op.email
           && v.sent[|w.sent|].key == w.requests[op.request].reservation.value
      else v.sent == w.sent
  {
  }

  function Run(l: Limits, normal: string -> Option<string>, ops: seq<Op>): World
    requires ValidLimits(l)
  {
    if ops == [] then World([], map[], []) else Next(l, normal, Run(l, normal, ops[..|ops| - 1]), ops[|ops| - 1])
  }

  ghost predicate IsReserve(call: Q.Op, recipient: string, id: string) {
    call.Reserve? && call.recipient == recipient && call.id == id
  }

  ghost predicate Issued(calls: seq<Q.Op>, recipient: string, id: string) {
    exists k :: 0 <= k < |calls| && IsReserve(calls[k], recipient, id)
  }

  lemma IssuedLater(calls: seq<Q.Op>, more: Q.Op, recipient: string, id: string)
    requires Issued(calls, recipient, id)
    ensures Issued(calls + [more], recipient, id)
  {
    var k :| 0 <= k < |calls| && IsReserve(calls[k], recipient, id);
    assert (calls + [more])[k] == calls[k];
  }

  lemma IssuedOnce(calls: seq<Q.Op>, a: string, b: string, id: string)
    requires Q.DistinctIds(calls) && Issued(calls, a, id) && Issued(calls, b, id)
    ensures a == b
  {
    var i :| 0 <= i < |calls| && IsReserve(calls[i], a, id);
    var j :| 0 <= j < |calls| && IsReserve(calls[j], b, id);
    assert i == j;
  }

  lemma TableStep(l: Limits, calls: seq<Q.Op>, call: Q.Op)
    requires ValidLimits(l)
    ensures Table(l, calls + [call]) == Q.Next(l, Table(l, calls), call, Some(RETENTION)).0
  {
    assert (calls + [call])[..|calls|] == calls;
  }

  /** Every stored reservation was issued by a reserve for its recipient. */
  ghost predicate RowsIssued(rows: seq<Row>, calls: seq<Q.Op>) {
    forall r :: r in rows ==> Issued(calls, r.recipient, r.id)
  }

  lemma ReservedRows(l: Limits, rows: seq<Row>, call: Q.Op, r: Row)
    requires ValidLimits(l) && call.Reserve?
    requires r in ReserveStep(l, rows, call.recipient, call.clock, call.id, Some(RETENTION)).0
    ensures r in rows || (r.recipient == call.recipient && r.id == call.id)
  {
    SelectMembers(rows, Probe(None, Millis(call.clock) - RETENTION, None));
  }

  lemma StepIssues(l: Limits, calls: seq<Q.Op>, call: Q.Op)
    requires ValidLimits(l) && RowsIssued(Table(l, calls).rows, calls)
    ensures RowsIssued(Table(l, calls + [call]).rows, calls + [call])
  {
    TableStep(l, calls, call);
    var before, after := Table(l, calls).rows, Table(l, calls + [call]).rows;
    forall r | r in after ensures Issued(calls + [call], r.recipient, r.id) {
      if call.Reserve? {
        ReservedRows(l, before, call, r);
        if r in before {
          IssuedLater(calls, call, r.recipient, r.id);
        } else {
          assert IsReserve((calls + [call])[|calls|], r.recipient, r.id);
        }
      } else {
        var k :| 0 <= k < |after| && after[k] == r;
        assert before[k] in before && before[k].id == r.id && before[k].recipient == r.recipient;
        IssuedLater(calls, call, r.recipient, r.id);
      }
    }
  }

  /** The provider call follows its own claim, for an address that the claim's reservation was charged for. */
  ghost predicate Charged(normal: string -> Option<string>, sends: seq<Row>, x: Sent) {
    x.claim < |sends| && sends[x.claim].id == x.key && normal(x.email) == Some(sends[x.claim].recipient)
  }

  ghost predicate RequestsIssued(w: World) {
    forall q :: q in w.requests && w.requests[q].reservation.Some? ==>
      w.requests[q].email.Some? && Issued(w.calls, w.requests[q].email.value, w.requests[q].reservation.value)
  }

  ghost predicate SentSound(normal: string -> Option<string>, sends: seq<Row>, sent: seq<Sent>) {
    && (forall i :: 0 <= i < |sent| ==> Charged(normal, sends, sent[i]))
    && (forall i, j :: 0 <= i < j < |sent| ==> sent[i].claim < sent[j].claim)
  }

  ghost predicate Inv(l: Limits, normal: string -> Option<string>, w: World)
    requires ValidLimits(l)
  {
    RowsIssued(Table(l, w.calls).rows, w.calls) && RequestsIssued(w)
      && SentSound(normal, Table(l, w.calls).sends, w.sent)
  }

  /** The send log of the budget only grows. */
  lemma SendsGrow(l: Limits, calls: seq<Q.Op>, call: Q.Op)
    requires ValidLimits(l)
    ensures Table(l, calls).sends <= Table(l, calls + [call]).sends
    ensures !call.Claim? ==> Table(l, calls + [call]).sends == Table(l, calls).sends
  {
    TableStep(l, calls, call);
  }

  lemma RequestsStayIssued(w: World, call: Q.Op)
    requires RequestsIssued(w)
    ensures RequestsIssued(w.(calls := w.calls + [call]))
  {
    forall q | q in w.requests && w.requests[q].reservation.Some?
      ensures Issued(w.calls + [call], w.requests[q].email.value, w.requests[q].reservation.value)
    {
      IssuedLater(w.calls, call, w.requests[q].email.value, w.requests[q].reservation.value);
    }
  }

  lemma SentStaysSound(normal: string -> Option<string>, before: seq<Row>, after: seq<Row>, sent: seq<Sent>)
    requires SentSound(normal, before, sent) && before <= after
    ensures SentSound(normal, after, sent)
  {
    forall i | 0 <= i < |sent| ensures Charged(normal, after, sent[i]) {
      assert Charged(normal, before, sent[i]);
    }
  }

  /** A claim that is answered by a provider call adds exactly that call's row to the log. */
  lemma ClaimedForRequest(l: Limits, normal: string -> Option<string>, w: World, op: Op)
    requires ValidLimits(l) && Inv(l, normal, w) && op.Send? && Next(l, normal, w, op).sent != w.sent
    requires Q.DistinctIds(w.calls)
    ensures SentSound(normal, Table(l, Next(l, normal, w, op).calls).sends, Next(l, normal, w, op).sent)
  {
    var v := Next(l, normal, w, op);
    var state := w.requests[op.request];
    var key := state.reservation.value;
    var before, after := Table(l, w.calls), Table(l, v.calls);
    TableStep(l, w.calls, Q.Claim(key, op.clock));
    Q.FindClaimableMeaning(before.rows, key, op.clock);
    var hit := Q.FindClaimable(before.rows, key, op.clock).value;
    IssuedOnce(w.calls, hit.recipient, state.email.value, key);
    SentStaysSound(normal, before.sends, after.sends, w.sent);
    assert after.sends == before.sends + [Q.Attempted(hit, op.clock)];
    assert Charged(normal, after.sends, v.sent[|w.sent|]);
    forall i | 0 <= i < |w.sent| ensures w.sent[i].claim < |before.sends| {
      assert Charged(normal, before.sends, w.sent[i]);
    }
  }

  /** One more call on the budget keeps what earlier provider calls rest on. */
  lemma CallKeepsInv(l: Limits, normal: string -> Option<string>, w: World, call: Q.Op)
    requires ValidLimits(l) && Inv(l, normal, w)
    ensures Inv(l, normal, w.(calls := w.calls + [call]))
  {
    StepIssues(l, w.calls, call);
    SendsGrow(l, w.calls, call);
    RequestsStayIssued(w, call);
    SentStaysSound(normal, Table(l, w.calls).sends, Table(l, w.calls + [call]).sends, w.sent);
  }

  /** A reservation is granted under the id it was asked for with. */
  lemma ReservedId(l: Limits, calls: seq<Q.Op>, call: Q.Op)
    requires ValidLimits(l) && call.Reserve?
    ensures var reply := Q.Next(l, Table(l, calls), call, Some(RETENTION)).1;
      reply.Answer? && (reply.reservation.Allowed? ==> reply.reservation.id == call.id)
  {
  }

  /** A new request whose reservation, if it has one, is the one just asked for. */
  lemma RequestAdded(w: World, call: Q.Op, request: nat, state: RequestState)
    requires RequestsIssued(w.(calls := w.calls + [call]))
    requires call.Reserve?
    requires state.reservation.Some? ==> state.email == Some(call.recipient) && state.reservation == Some(call.id)
    ensures RequestsIssued(w.(calls := w.calls + [call], requests := w.requests[request := state]))
  {
    var calls := w.calls + [call];
    assert IsReserve(calls[|w.calls|], call.recipient, call.id);
  }

  lemma BeforeKeepsInv(l: Limits, normal: string -> Option<string>, w: World, op: Op)
    requires ValidLimits(l) && Inv(l, normal, w) && op.Before?
    ensures Inv(l, normal, Next(l, normal, w, op))
  {
    if op.request !in w.requests && normal(op.body).Some? {
      var call := Q.Reserve(normal(op.body).value, op.clock, op.id);
      ReservedId(l, w.calls, call);
      CallKeepsInv(l, normal, w, call);
      RequestAdded(w, call, op.request, Next(l, normal, w, op).requests[op.request]);
    }
  }

  lemma SendKeepsInv(l: Limits, normal: string -> Option<string>, w: World, op: Op)
    requires ValidLimits(l) && Inv(l, normal, w) && Q.DistinctIds(w.calls) && op.Send?
    ensures Inv(l, normal, Next(l, normal, w, op))
  {
    var v := Next(l, normal, w, op);
    if v.calls != w.calls {
      CallKeepsInv(l, normal, w, Q.Claim(w.requests[op.request].reservation.value, op.clock));
      if v.sent != w.sent {
        ClaimedForRequest(l, normal, w, op);
      }
    }
  }

  lemma NextKeepsInv(l: Limits, normal: string -> Option<string>, w: World, op: Op)
    requires ValidLimits(l) && Inv(l, normal, w) && Q.DistinctIds(w.calls)
    ensures Inv(l, normal, Next(l, normal, w, op))
  {
    match op
    case Before(_, _, _, _) => BeforeKeepsInv(l, normal, w, op);
    case Send(_, _, _, _) => SendKeepsInv(l, normal, w, op);
    case Settle(request, outcome) =>
      if request in w.requests && w.requests[request].reservation.Some? {
        CallKeepsInv(l, normal, w, Q.Finish(w.requests[request].reservation.value, outcome));
      }
  }

  lemma CallsGrow(l: Limits, normal: string -> Option<string>, w: World, op: Op)
    requires ValidLimits(l) && Q.DistinctIds(Next(l, normal, w, op).calls)
    ensures Q.DistinctIds(w.calls)
  {
    var v := Next(l, normal, w, op);
    assert forall k :: 0 <= k < |w.calls| ==> v.calls[k] == w.calls[k];
  }

  lemma {:induction false} RunKeepsInv(l: Limits, normal: string -> Option<string>, ops: seq<Op>)
    requires ValidLimits(l) && Q.DistinctIds(Run(l, normal, ops).calls)
    ensures Inv(l, normal, Run(l, normal, ops))
  {
    if ops != [] {
      var before := Run(l, normal, ops[..|ops| - 1]);
      CallsGrow(l, normal, before, ops[|ops| - 1]);
      RunKeepsInv(l, normal, ops[..|ops| - 1]);
      NextKeepsInv(l, normal, before, ops[|ops| - 1]);
    }
  }

  // ----------------------------------------------------- provider calls bounded

  /** The claims that provider calls followed. */
  function ClaimsOf(sends: seq<Row>, sent: seq<Sent>): seq<Row>
    requires forall i :: 0 <= i < |sent| ==> sent[i].claim < |sends|
  {
    seq(|sent|, i requires 0 <= i < |sent| => sends[sent[i].claim])
  }

  lemma {:induction false} CountWithin(sends: seq<Row>, sent: seq<Sent>, p: Probe)
    requires forall i :: 0 <= i < |sent| ==> sent[i].claim < |sends|
    requires forall i, j :: 0 <= i < j < |sent| ==> sent[i].claim < sent[j].claim
    ensures Q.SendCount(ClaimsOf(sends, sent), p) <= Q.SendCount(sends, p)
  {
    if sent != [] {
      var k := |sent| - 1;
      var c := sent[k].claim;
      CountWithin(sends[..c], sent[..k], p);
      assert ClaimsOf(sends, sent) == ClaimsOf(sends[..c], sent[..k]) + [sends[c]];
      Q.SendCountAppend(ClaimsOf(sends[..c], sent[..k]), [sends[c]], p);
      assert sends == sends[..c] + ([sends[c]] + sends[c + 1..]);
      Q.SendCountAppend(sends[..c], [sends[c]] + sends[c + 1..], p);
      Q.SendCountAppend([sends[c]], sends[c + 1..], p);
    }
  }

  /**
    Provider calls are bounded: however requests interleave, no reservation leads
    to two of them, each goes to an address its own reservation was charged for,
    and by the instant of the claim any window one minute shorter than a
    dimension's own holds at most that dimension's limit of them.
  */
  lemma ProviderCallsAreBounded(l: Limits, normal: string -> Option<string>, ops: seq<Op>, d: Dimension,
                                recipient: string, t: int)
    requires ValidLimits(l)
    requires Q.Tolerant(Run(l, normal, ops).calls) && Q.DistinctIds(Run(l, normal, ops).calls)
    ensures var w := Run(l, normal, ops);
      var sends := Table(l, w.calls).sends;
      && SentSound(normal, sends, w.sent)
      && (forall i, j :: 0 <= i < j < |w.sent| ==> w.sent[i].key != w.sent[j].key)
      && Q.SendCount(ClaimsOf(sends, w.sent), Probe(WhoOf(d, recipient), t - (WindowOf(d) - MINUTE),
                                                    Some(t))) <= MaxOf(l, d)
  {
    var w := Run(l, normal, ops);
    var sends := Table(l, w.calls).sends;
    RunKeepsInv(l, normal, ops);
    forall i, j | 0 <= i < j < |w.sent| ensures w.sent[i].key != w.sent[j].key {
      assert Charged(normal, sends, w.sent[i]) && Charged(normal, sends, w.sent[j]);
      Q.OneSendPerReservation(l, w.calls, w.sent[i].claim, w.sent[j].claim);
    }
    forall i | 0 <= i < |w.sent| ensures w.sent[i].claim < |sends| {
      assert Charged(normal, sends, w.sent[i]);
    }
    CountWithin(sends, w.sent, Probe(WhoOf(d, recipient), t - (WindowOf(d) - MINUTE), Some(t)));
    Q.SendBound(l, w.calls, d, recipient, t);
  }
}
