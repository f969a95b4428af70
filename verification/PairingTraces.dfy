/**
  Where pairing comes from: every outbound request and every paired site traces
  back to the calls that led to it, with the right verifier and in time.
*/
module PairingTraces {
  import opened Prelude
  import R = GrantRegistry
  import opened Pairing

  /** The i-th call started a verification of the attempt with its verifier, before its deadline. */
  predicate StartsWith(ops: seq<Op>, i: nat, call: nat, input: VerifyInput, t: Attempt) {
    && i < |ops| && ops[i].Start? && ops[i].call == call && ops[i].input == input
    && R.Sha(input.verifier) == t.verifierHash && ops[i].now < t.expiresAt
    && input.site.tenant == input.attempt.tenant
  }

  /** And the j-th, later one marked it for that call, still before its deadline, and the caller was told so. */
  predicate MarksIt(ops: seq<Op>, i: nat, j: nat, call: nat, t: Attempt) {
    i < j < |ops| && ops[j].Mark? && ops[j].call == call && ops[j].now < t.expiresAt && ops[j].acknowledged
  }

  predicate CommitsIt(ops: seq<Op>, j: nat, k: nat, call: nat, t: Attempt) {
    j < k < |ops| && ops[k].Commit? && ops[k].call == call && ops[k].now < t.expiresAt
  }

  ghost predicate Started(ops: seq<Op>, call: nat, input: VerifyInput, t: Attempt) {
    exists i :: StartsWith(ops, i, call, input, t)
  }

  ghost predicate Marked(ops: seq<Op>, call: nat, input: VerifyInput, t: Attempt) {
    exists i, j :: StartsWith(ops, i, call, input, t) && MarksIt(ops, i, j, call, t)
  }

  ghost predicate Committed(ops: seq<Op>, call: nat, input: VerifyInput, t: Attempt) {
    exists i, j, k :: StartsWith(ops, i, call, input, t) && MarksIt(ops, i, j, call, t) && CommitsIt(ops, j, k, call, t)
  }

  lemma StartedLater(ops: seq<Op>, more: Op, call: nat, input: VerifyInput, t: Attempt)
    requires Started(ops, call, input, t)
    ensures Started(ops + [more], call, input, t)
  {
    var i :| StartsWith(ops, i, call, input, t);
    assert StartsWith(ops + [more], i, call, input, t);
  }

  lemma MarkedLater(ops: seq<Op>, more: Op, call: nat, input: VerifyInput, t: Attempt)
    requires Marked(ops, call, input, t)
    ensures Marked(ops + [more], call, input, t)
  {
    var i, j :| StartsWith(ops, i, call, input, t) && MarksIt(ops, i, j, call, t);
    assert StartsWith(ops + [more], i, call, input, t) && MarksIt(ops + [more], i, j, call, t);
  }

  lemma CommittedLater(ops: seq<Op>, more: Op, call: nat, input: VerifyInput, t: Attempt)
    requires Committed(ops, call, input, t)
    ensures Committed(ops + [more], call, input, t)
  {
    var i, j, k :| StartsWith(ops, i, call, input, t) && MarksIt(ops, i, j, call, t) && CommitsIt(ops, j, k, call, t);
    assert StartsWith(ops + [more], i, call, input, t) && MarksIt(ops + [more], i, j, call, t)
      && CommitsIt(ops + [more], j, k, call, t);
  }

  /** A call under way was started with the right verifier, and one that owns its attempt marked it in time. */
  ghost predicate CallTraced(w: World, ops: seq<Op>, c: nat)
    requires c in w.calls
  {
    var input := w.calls[c].input;
    && input.attempt in w.t.attempts
    && Started(ops, c, input, w.t.attempts[input.attempt])
    && (Owns(w.calls[c]) ==> Marked(ops, c, input, w.t.attempts[input.attempt]))
  }

  /** A call with the right verifier marked the attempt in time before the request was sent. */
  ghost predicate RequestTraced(w: World, ops: seq<Op>, a: Ref) {
    && a in w.t.attempts
    && exists c: nat, input: VerifyInput :: input.attempt == a && Marked(ops, c, input, w.t.attempts[a])
  }

  /** A call with the right verifier marked the attempt and committed it with its site, each in time. */
  ghost predicate ActiveTraced(w: World, ops: seq<Op>, a: Ref)
    requires a in w.t.attempts
  {
    exists c: nat, input: VerifyInput ::
      input.attempt == a && w.t.attempts[a].site == Some(input.site) && Committed(ops, c, input, w.t.attempts[a])
  }

  ghost predicate Traced(w: World, ops: seq<Op>) {
    && (forall c :: c in w.calls ==> CallTraced(w, ops, c))
    && (forall i :: 0 <= i < |w.requests| ==> RequestTraced(w, ops, w.requests[i]))
    && (forall a :: a in w.t.attempts && w.t.attempts[a].status == AttemptActive ==> ActiveTraced(w, ops, a))
  }

  /**
    A call whose completion commits and that is told so is over; one that is told of
    an error, whether or not it committed, goes on to report the attempt failed.
  */
  lemma CommitMeaning(issuer: string, w: World, op: Op)
    requires op.Commit? && op.call in w.calls && w.calls[op.call].phase.Proved?
    ensures var c := w.calls[op.call];
      var (t, done) := CompleteAttempt(w.t, c.input.attempt, c.resource, c.phase.acceptance.proof, c.input.site,
                                       c.input.key, op.now);
      var v := Next(issuer, w, op);
      && v.t == t && v.requests == w.requests && v.proofs == w.proofs
      && (op.call !in v.calls <==> done.Ok? && op.acknowledged)
      && (op.call in v.calls ==> v.calls[op.call] == c.(phase := Failing))
  {
  }

  /** A failure report fails an attempt that is being verified, and changes no other. */
  lemma GiveUpMeaning(issuer: string, w: World, op: Op)
    requires op.GiveUp? && op.call in w.calls && w.calls[op.call].phase == Failing
    ensures var a, v := w.calls[op.call].input.attempt, Next(issuer, w, op);
      && op.call !in v.calls
      && v.t == if a in w.t.attempts && w.t.attempts[a].status == Verifying
                then w.t.(attempts := w.t.attempts[a := w.t.attempts[a].(status := Failed)]) else w.t
  {
  }

  /** The columns that identify an attempt stay. */
  lemma AttemptKept(issuer: string, w: World, op: Op, a: Ref)
    requires a in w.t.attempts
    ensures a in Next(issuer, w, op).t.attempts
    ensures Next(issuer, w, op).t.attempts[a].verifierHash == w.t.attempts[a].verifierHash
    ensures Next(issuer, w, op).t.attempts[a].expiresAt == w.t.attempts[a].expiresAt
  {
    StepAdvances(issuer, w, op);
  }

  /** Only the digest and the deadline of an attempt matter to its traces. */
  lemma SameTraces(ops: seq<Op>, call: nat, input: VerifyInput, t: Attempt, u: Attempt)
    requires u.verifierHash == t.verifierHash && u.expiresAt == t.expiresAt
    ensures Started(ops, call, input, t) ==> Started(ops, call, input, u)
    ensures Marked(ops, call, input, t) ==> Marked(ops, call, input, u)
    ensures Committed(ops, call, input, t) ==> Committed(ops, call, input, u)
  {
    if Started(ops, call, input, t) {
      var i :| StartsWith(ops, i, call, input, t);
      assert StartsWith(ops, i, call, input, u);
    }
    if Marked(ops, call, input, t) {
      var i, j :| StartsWith(ops, i, call, input, t) && MarksIt(ops, i, j, call, t);
      assert StartsWith(ops, i, call, input, u) && MarksIt(ops, i, j, call, u);
    }
    if Committed(ops, call, input, t) {
      var i, j, k :| StartsWith(ops, i, call, input, t) && MarksIt(ops, i, j, call, t) && CommitsIt(ops, j, k, call, t);
      assert StartsWith(ops, i, call, input, u) && MarksIt(ops, i, j, call, u) && CommitsIt(ops, j, k, call, u);
    }
  }

  /** A call that starts finds a stored attempt whose digest is its verifier's, before the deadline. */
  lemma StartIsTraced(issuer: string, w: World, ops: seq<Op>, op: Op)
    requires op.Start? && op.call !in w.calls && op.call in Next(issuer, w, op).calls
    ensures CallTraced(Next(issuer, w, op), ops + [op], op.call)
  {
    var t := w.t.attempts[op.input.attempt];
    assert StartsWith(ops + [op], |ops|, op.call, op.input, t);
  }

  /** A call that comes to own its attempt does so by marking it before the deadline. */
  lemma MarkIsTraced(issuer: string, w: World, ops: seq<Op>, op: Op, c: nat)
    requires c in w.calls && CallTraced(w, ops, c) && !Owns(w.calls[c])
    requires c in Next(issuer, w, op).calls && Owns(Next(issuer, w, op).calls[c])
    ensures op.Mark? && op.call == c && Next(issuer, w, op).calls[c].input == w.calls[c].input
    ensures Marked(ops + [op], c, w.calls[c].input, w.t.attempts[w.calls[c].input.attempt])
  {
    var input := w.calls[c].input;
    var t := w.t.attempts[input.attempt];
    var i :| StartsWith(ops, i, c, input, t);
    assert StartsWith(ops + [op], i, c, input, t) && MarksIt(ops + [op], i, |ops|, c, t);
  }

  lemma StepKeepsCallTraced(issuer: string, w: World, ops: seq<Op>, op: Op, c: nat)
    requires c in w.calls && CallTraced(w, ops, c) && c in Next(issuer, w, op).calls
    ensures CallTraced(Next(issuer, w, op), ops + [op], c)
  {
    var v := Next(issuer, w, op);
    var input := w.calls[c].input;
    var t := w.t.attempts[input.attempt];
    assert v.calls[c].input == input;
    AttemptKept(issuer, w, op, input.attempt);
    StartedLater(ops, op, c, input, t);
    if Owns(v.calls[c]) {
      if Owns(w.calls[c]) {
        MarkedLater(ops, op, c, input, t);
      } else {
        MarkIsTraced(issuer, w, ops, op, c);
      }
    }
    SameTraces(ops + [op], c, input, t, v.t.attempts[input.attempt]);
  }

  lemma RequestStaysTraced(issuer: string, w: World, ops: seq<Op>, op: Op, a: Ref)
    requires RequestTraced(w, ops, a)
    ensures RequestTraced(Next(issuer, w, op), ops + [op], a)
  {
    var c: nat, input: VerifyInput :| input.attempt == a && Marked(ops, c, input, w.t.attempts[a]);
    AttemptKept(issuer, w, op, a);
    MarkedLater(ops, op, c, input, w.t.attempts[a]);
    SameTraces(ops + [op], c, input, w.t.attempts[a], Next(issuer, w, op).t.attempts[a]);
  }

  /** A request is sent by a mark that succeeds. */
  lemma NewRequestIsTraced(issuer: string, w: World, ops: seq<Op>, op: Op)
    requires forall c :: c in w.calls ==> CallTraced(w, ops, c)
    requires |Next(issuer, w, op).requests| > |w.requests|
    ensures Next(issuer, w, op).requests == w.requests + [Next(issuer, w, op).requests[|w.requests|]]
    ensures RequestTraced(Next(issuer, w, op), ops + [op], Next(issuer, w, op).requests[|w.requests|])
  {
    var v := Next(issuer, w, op);
    var input := w.calls[op.call].input;
    assert CallTraced(w, ops, op.call);
    MarkIsTraced(issuer, w, ops, op, op.call);
    AttemptKept(issuer, w, op, input.attempt);
    SameTraces(ops + [op], op.call, input, w.t.attempts[input.attempt], v.t.attempts[input.attempt]);
  }

  lemma ActiveStaysTraced(issuer: string, w: World, ops: seq<Op>, op: Op, a: Ref)
    requires a in w.t.attempts && w.t.attempts[a].status == AttemptActive && ActiveTraced(w, ops, a)
    ensures a in Next(issuer, w, op).t.attempts && ActiveTraced(Next(issuer, w, op), ops + [op], a)
  {
    var c: nat, input: VerifyInput :| input.attempt == a && w.t.attempts[a].site == Some(input.site)
                    && Committed(ops, c, input, w.t.attempts[a]);
    StepAdvances(issuer, w, op);
    CommittedLater(ops, op, c, input, w.t.attempts[a]);
  }

  /** An attempt becomes active only by a commit before its deadline, of a call that owns it. */
  lemma NewActiveIsTraced(issuer: string, w: World, ops: seq<Op>, op: Op, a: Ref)
    requires forall c :: c in w.calls ==> CallTraced(w, ops, c)
    requires a in Next(issuer, w, op).t.attempts && Next(issuer, w, op).t.attempts[a].status == AttemptActive
    requires a in w.t.attempts ==> w.t.attempts[a].status != AttemptActive
    ensures ActiveTraced(Next(issuer, w, op), ops + [op], a)
  {
    assert op.Commit? && op.call in w.calls && w.calls[op.call].phase.Proved?;
    var v := Next(issuer, w, op);
    var input, t := w.calls[op.call].input, w.t.attempts[a];
    assert CallTraced(w, ops, op.call) && input.attempt == a;
    var i, j :| StartsWith(ops, i, op.call, input, t) && MarksIt(ops, i, j, op.call, t);
    assert StartsWith(ops + [op], i, op.call, input, t) && MarksIt(ops + [op], i, j, op.call, t)
      && CommitsIt(ops + [op], j, |ops|, op.call, t);
    SameTraces(ops + [op], op.call, input, t, v.t.attempts[a]);
  }

  lemma StepKeepsTraced(issuer: string, w: World, ops: seq<Op>, op: Op)
    requires Traced(w, ops)
    ensures Traced(Next(issuer, w, op), ops + [op])
  {
    var v := Next(issuer, w, op);
    forall c | c in v.calls ensures CallTraced(v, ops + [op], c) {
      if c in w.calls {
        StepKeepsCallTraced(issuer, w, ops, op, c);
      } else {
        StartIsTraced(issuer, w, ops, op);
      }
    }
    if |v.requests| > |w.requests| {
      NewRequestIsTraced(issuer, w, ops, op);
    }
    forall i | 0 <= i < |v.requests| ensures RequestTraced(v, ops + [op], v.requests[i]) {
      if i < |w.requests| {
        RequestStaysTraced(issuer, w, ops, op, w.requests[i]);
      }
    }
    forall a | a in v.t.attempts && v.t.attempts[a].status == AttemptActive ensures ActiveTraced(v, ops + [op], a) {
      if a in w.t.attempts && w.t.attempts[a].status == AttemptActive {
        ActiveStaysTraced(issuer, w, ops, op, a);
      } else {
        NewActiveIsTraced(issuer, w, ops, op, a);
      }
    }
  }

  /**
    However calls interleave: for every outbound request some call was started with
    a verifier whose digest is the attempt's stored one and marked the attempt, and
    for every active attempt that call also committed it with its site, each step
    before the attempt's deadline.
  */
  lemma {:induction false} PairingIsTraced(issuer: string, t: Tables, ops: seq<Op>)
    requires t.attempts == map[]
    ensures Traced(Run(issuer, Initial(t), ops), ops)
  {
    if ops != [] {
      var k := |ops| - 1;
      PairingIsTraced(issuer, t, ops[..k]);
      StepKeepsTraced(issuer, Run(issuer, Initial(t), ops[..k]), ops[..k], ops[k]);
      assert ops == ops[..k] + [ops[k]];
    }
  }
}
