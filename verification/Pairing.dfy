/**
  Site pairing: an attempt is created, claimed by one verification call, proved
  by one outbound request to the site, and completed or failed. Calls interleave
  between their transactions, and a commit may succeed although the caller sees
  an error.
*/
module Pairing {
  import opened Prelude
  import opened GrantRegistry
  import opened SiteProof

  const ATTEMPT_TTL: int := 600 * SECOND

  datatype AttemptStatus = AttemptPending | Verifying | AttemptActive | Failed

  datatype Ref = Ref(tenant: string, id: string)

  datatype Attempt = Attempt(
    resource: string, verifierHash: Digest, status: AttemptStatus, expiresAt: int, site: Option<SiteRef>)

  datatype CompletionRecord = CompletionRecord(attempt: Ref, site: SiteRef, thumbprint: string)

  datatype Tables = Tables(attempts: map<Ref, Attempt>, sites: map<SiteRef, Site>, records: map<Ref, CompletionRecord>)

  // ---------------------------------------------------------- transactions

  function CreateAttempt(t: Tables, a: Ref, resource: string, verifier: string, now: int): (Tables, Result<()>) {
    if a in t.attempts then (t, Err("pairing.persistence_failed"))
    else (t.(attempts := t.attempts[a := Attempt(resource, Sha(verifier), AttemptPending, now + ATTEMPT_TTL, None)]),
          Ok(()))
  }

  function FindAttempt(t: Tables, a: Ref): Option<Attempt> {
    if a in t.attempts && (t.attempts[a].status.AttemptPending? || t.attempts[a].status.Verifying?)
    then Some(t.attempts[a]) else None
  }

  function SetStatus(t: Tables, a: Ref, status: AttemptStatus): Tables
    requires a in t.attempts
  {
    t.(attempts := t.attempts[a := t.attempts[a].(status := status)])
  }

  function MarkVerifying(t: Tables, a: Ref, now: int): (Tables, bool) {
    if a in t.attempts && t.attempts[a].status.AttemptPending? && t.attempts[a].expiresAt > now
    then (SetStatus(t, a, Verifying), true) else (t, false)
  }

  function Fail(t: Tables, a: Ref): Tables {
    if a in t.attempts && t.attempts[a].status.Verifying? then SetStatus(t, a, Failed) else t
  }

  function CompleteAttempt(t: Tables, a: Ref, resource: string, proof: Verified, site: SiteRef, key: string, now: int)
    : (Tables, Result<()>)
  {
    var k := Ref(a.tenant, key);
    var record := CompletionRecord(a, site, proof.thumbprint);
    if k in t.records then
      (t, if t.records[k] == record then Ok(()) else Err("idempotency_conflict"))
    else if site in t.sites || ResourceTaken(t.sites, resource) then (t, Err("unique_violation"))
    else if a !in t.attempts || !t.attempts[a].status.Verifying? || t.attempts[a].expiresAt <= now then
      (t, Err("pairing_replay"))
    else
      (Tables(t.attempts[a := t.attempts[a].(status := AttemptActive, site := Some(site))],
              t.sites[site := Site(resource, SiteActive, proof.publicJwk)],
              t.records[k := record]), Ok(()))
  }

  function DisconnectTable(t: Tables, site: SiteRef): Tables {
    if site in t.sites && Connected(t.sites[site].status)
    then t.(sites := t.sites[site := t.sites[site].(status := SiteRevoked)]) else t
  }

  // ------------------------------------------------------------- the service

  datatype VerifyInput = VerifyInput(attempt: Ref, verifier: string, site: SiteRef, key: string)

  /** A site proof accepted for one call. */
  datatype Acceptance = Acceptance(input: VerifyInput, resource: string, challenge: string, proof: Verified, at: int)

  /** How far a verification call has come; an error leads through Failing to its end. */
  datatype Phase = Sighted | Requested(challenge: string) | Proved(acceptance: Acceptance) | Failing

  datatype Call = Call(input: VerifyInput, resource: string, phase: Phase)

  function ExpectationOf(issuer: string, host: string, c: Call, challenge: string, keySha: string, kid: string)
    : Expected
  {
    Expected(PairingKind, issuer, c.input.attempt.tenant, c.resource, host, challenge,
             Some(c.input.attempt.id), Some(c.input.site.id), Some(keySha), Some(kid), None, None, None, None, None)
  }

  /** Begin of a call: the attempt is open, unexpired, and its verifier hashes to the stored digest. */
  function Open(t: Tables, i: VerifyInput, now: int): Option<Call> {
    var a := FindAttempt(t, i.attempt);
    if a.None? || a.value.expiresAt <= now || Sha(i.verifier) != a.value.verifierHash
      || i.site.tenant != i.attempt.tenant
    then None else Some(Call(i, a.value.resource, Sighted))
  }

  /** What the site's answer to one request is worth: its accepted proof, or why there is none. */
  function ProofOf(issuer: string, host: string, c: Call, challenge: string, keySha: string, kid: string,
                   answer: Option<(Jws, Jwk)>, now: int): Result<Verified>
  {
    if answer.None? then Err("network.failed")
    else VerifySiteProof(answer.value.0, answer.value.1, ExpectationOf(issuer, host, c, challenge, keySha, kid), now)
  }

  /** The call may go on to the site: its attempt is open and becomes its own. */
  predicate Proceeds(t: Tables, i: VerifyInput, now: int) {
    Open(t, i, now).Some? && MarkVerifying(t, i.attempt, now).1
  }

  /** A created attempt is pending for ten minutes under the digest of its verifier, and no other changes. */
  lemma CreateMeaning(t: Tables, a: Ref, resource: string, verifier: string, now: int)
    ensures var (u, result) := CreateAttempt(t, a, resource, verifier, now);
      && (result.Ok? <==> a !in t.attempts)
      && (result.Err? ==> u == t)
      && (result.Ok? ==>
            u == t.(attempts := t.attempts[a :=
                      Attempt(resource, Sha(verifier), AttemptPending, now + 600_000_000, None)]))
  {
  }

  /**
    A completion under an unused key succeeds exactly when the site and its
    resource are free and the attempt is being verified and unexpired; it activates
    the attempt with the site, stores the site under the proof's key, and keeps
    every other row. Any other leaves the tables as they are.
  */
  lemma CompleteMeaning(t: Tables, a: Ref, resource: string, proof: Verified, site: SiteRef, key: string, now: int)
    ensures var (u, result) := CompleteAttempt(t, a, resource, proof, site, key, now);
      var k := Ref(a.tenant, key);
      if k in t.records then
        u == t && (result.Ok? <==> t.records[k] == CompletionRecord(a, site, proof.thumbprint))
      else
        && (result.Ok? <==>
              && site !in t.sites
              && (forall s :: s in t.sites && t.sites[s].resource == resource ==>
                    t.sites[s].status == SiteRevoked || t.sites[s].status == SiteDeleted)
              && a in t.attempts && t.attempts[a].status == Verifying && now < t.attempts[a].expiresAt)
        && (result.Err? ==> u == t)
        && (result.Ok? ==>
              && u.attempts == t.attempts[a := t.attempts[a].(status := AttemptActive, site := Some(site))]
              && u.sites == t.sites[site := Site(resource, SiteActive, proof.publicJwk)]
              && u.records == t.records[k := CompletionRecord(a, site, proof.thumbprint)])
  {
  }

  /** A call starts on an attempt that is pending or being verified, unexpired, of the site's tenant and verifier. */
  lemma OpenMeaning(t: Tables, i: VerifyInput, now: int)
    ensures Open(t, i, now).Some? <==>
      && i.attempt in t.attempts && t.attempts[i.attempt].status in {AttemptPending, Verifying}
      && now < t.attempts[i.attempt].expiresAt && t.attempts[i.attempt].verifierHash == Sha(i.verifier)
      && i.site.tenant == i.attempt.tenant
  {
  }

  /**
    The attempt is pending and unexpired, the verifier hashes to its stored digest,
    and the site is of its tenant. A call goes on to the site exactly then.
  */
  lemma ProceedsMeaning(t: Tables, i: VerifyInput, now: int)
    ensures Proceeds(t, i, now) <==>
      && i.attempt in t.attempts && t.attempts[i.attempt].status == AttemptPending
      && now < t.attempts[i.attempt].expiresAt && t.attempts[i.attempt].verifierHash == Sha(i.verifier)
      && i.site.tenant == i.attempt.tenant
    ensures Proceeds(t, i, now) ==>
      && Open(t, i, now).value.resource == t.attempts[i.attempt].resource && Open(t, i, now).value.input == i
      && MarkVerifying(t, i.attempt, now).0
           == t.(attempts := t.attempts[i.attempt := t.attempts[i.attempt].(status := Verifying)])
  {
  }

  class PairingService {
    var tables: Tables
    var requests: seq<Ref>

    constructor (tables: Tables)
      ensures this.tables == tables && requests == []
    {
      this.tables := tables;
      requests := [];
    }

    /**
      A whole call that no other call comes between; `answer` is the site's answer,
      or None for a failed request. A call that may not proceed changes nothing and
      asks nobody. One that proceeds sends one request, succeeds exactly when the
      answer verifies for this very attempt, site and challenge and the completion
      commits, and otherwise leaves the attempt failed.
    */
    method Verify(i: VerifyInput, issuer: string, host: string, challenge: string, keySha: string, kid: string,
                  answer: Option<(Jws, Jwk)>, now: int) returns (result: Result<Verified>)
      modifies this
      ensures !Proceeds(old(tables), i, now) ==> result.Err? && tables == old(tables) && requests == old(requests)
      ensures Proceeds(old(tables), i, now) ==>
        var c, marked := Open(old(tables), i, now).value, MarkVerifying(old(tables), i.attempt, now).0;
        var proof := ProofOf(issuer, host, c, challenge, keySha, kid, answer, now);
        && requests == old(requests) + [i.attempt]
        && (result.Ok? <==>
              proof.Ok? && CompleteAttempt(marked, i.attempt, c.resource, proof.value, i.site, i.key, now).1.Ok?)
        && (result.Ok? ==>
              && result.value == proof.value
              && tables == CompleteAttempt(marked, i.attempt, c.resource, proof.value, i.site, i.key, now).0)
        && (result.Err? ==> tables == Fail(marked, i.attempt) && tables.attempts[i.attempt].status.Failed?)
      // A request is sent exactly for a pending, unexpired attempt whose stored digest is the verifier's.
      ensures var t := old(tables).attempts;
        if i.attempt in t && t[i.attempt].status == AttemptPending && now < t[i.attempt].expiresAt
           && t[i.attempt].verifierHash == Sha(i.verifier) && i.site.tenant == i.attempt.tenant
        then requests == old(requests) + [i.attempt]
        else requests == old(requests) && result.Err? && tables == old(tables)
      // Success is a verified answer for exactly this attempt, site and challenge, and pairs the attempt with the site.
      ensures result.Ok? ==>
        && i.attempt in old(tables).attempts && answer.Some?
        && VerifySiteProof(answer.value.0, answer.value.1,
                           Expected(PairingKind, issuer, i.attempt.tenant, old(tables).attempts[i.attempt].resource,
                                    host,
                                    challenge, Some(i.attempt.id), Some(i.site.id), Some(keySha), Some(kid), None, None,
                                    None, None, None), now) == result
      ensures result.Ok? && Ref(i.attempt.tenant, i.key) !in old(tables).records ==>
        var a := old(tables).attempts[i.attempt];
        && i.site !in old(tables).sites
        && tables.attempts == old(tables).attempts[i.attempt := a.(status := AttemptActive, site := Some(i.site))]
        && tables.sites == old(tables).sites[i.site := Site(a.resource, SiteActive, answer.value.1)]
      // A request that leads to nothing leaves its attempt failed, and all else as it was.
      ensures result.Err? && requests != old(requests) ==>
        && i.attempt in old(tables).attempts
        && tables == old(tables).(attempts :=
             old(tables).attempts[i.attempt := old(tables).attempts[i.attempt].(status := Failed)])
    {
      ProceedsMeaning(tables, i, now);
      var seen := Open(tables, i, now);
      if seen.None? {
        return Err("pairing.state_invalid");
      }
      var (next, marked) := MarkVerifying(tables, i.attempt, now);
      if !marked {
        return Err("pairing.state_invalid");
      }
      tables := next;
      requests := requests + [i.attempt];
      var proof := ProofOf(issuer, host, seen.value, challenge, keySha, kid, answer, now);
      if proof.Ok? {
        var (after, done) := CompleteAttempt(tables, i.attempt, seen.value.resource, proof.value, i.site, i.key, now);
        if done.Ok? {
          tables := after;
          return proof;
        }
        proof := Err("pairing.persistence_failed");
      }
      tables := Fail(tables, i.attempt);
      result := Err(proof.error);
    }
  }

  // ------------------------------------------------------------------ runs

  /** All tables, the calls under way, every outbound proof request so far, and every accepted proof. */
  datatype World = World(t: Tables, calls: map<nat, Call>, requests: seq<Ref>, proofs: seq<Acceptance>)

  function Initial(t: Tables): World {
    World(t, map[], [], [])
  }

  datatype Op =
    | Begin(attempt: Ref, resource: string, verifier: string, now: int)
    | Start(call: nat, input: VerifyInput, now: int)
    | Mark(call: nat, challenge: string, acknowledged: bool, now: int)
    | Answer(call: nat, answer: Option<(Jws, Jwk)>, host: string, keySha: string, kid: string, now: int)
    | Commit(call: nat, acknowledged: bool, now: int)
    | GiveUp(call: nat)
    | DropSite(site: SiteRef)

  function AnswerOf(issuer: string, c: Call, op: Op): Result<Verified>
    requires op.Answer? && c.phase.Requested?
  {
    ProofOf(issuer, op.host, c, c.phase.challenge, op.keySha, op.kid, op.answer, op.now)
  }

  function Next(issuer: string, w: World, op: Op): World {
    match op
    case Begin(attempt, resource, verifier, now) => w.(t := CreateAttempt(w.t, attempt, resource, verifier, now).0)
    case Start(call, input, now) =>
      var seen := Open(w.t, input, now);
      if call in w.calls || seen.None? then w else w.(calls := w.calls[call := seen.value])
    case Mark(call, challenge, acknowledged, now) =>
      if call !in w.calls || !w.calls[call].phase.Sighted? then w
      else
        var (t, marked) := MarkVerifying(w.t, w.calls[call].input.attempt, now);
        if marked && acknowledged
        then w.(t := t, calls := w.calls[call := w.calls[call].(phase := Requested(challenge))],
                requests := w.requests + [w.calls[call].input.attempt])
        else w.(t := t, calls := w.calls - {call})
    case Answer(call, _, _, _, _, now) =>
      if call !in w.calls || !w.calls[call].phase.Requested? then w
      else
        var c := w.calls[call];
        var proof := AnswerOf(issuer, c, op);
        if proof.Err? then w.(calls := w.calls[call := c.(phase := Failing)])
        else
          var x := Acceptance(c.input, c.resource, c.phase.challenge, proof.value, now);
          w.(calls := w.calls[call := c.(phase := Proved(x))], proofs := w.proofs + [x])
    case Commit(call, acknowledged, now) =>
      if call !in w.calls || !w.calls[call].phase.Proved? then w
      else
        var c := w.calls[call];
        var (t, done) := CompleteAttempt(w.t, c.input.attempt, c.resource, c.phase.acceptance.proof, c.input.site,
                                         c.input.key, now);
        w.(t := t,
           calls := if done.Ok? && acknowledged then w.calls - {call} else w.calls[call := c.(phase := Failing)])
    case GiveUp(call) =>
      if call !in w.calls || !w.calls[call].phase.Failing? then w
      else w.(t := Fail(w.t, w.calls[call].input.attempt), calls := w.calls - {call})
    case DropSite(site) => w.(t := DisconnectTable(w.t, site))
  }

  function Run(issuer: string, w: World, ops: seq<Op>): World {
    if ops == [] then w else Next(issuer, Run(issuer, w, ops[..|ops| - 1]), ops[|ops| - 1])
  }

  /** The call has passed the compare-and-swap and owns its attempt. */
  predicate Owns(c: Call) {
    !c.phase.Sighted?
  }

  /** The call works on a stored attempt, for its resource, within one tenant. */
  predicate CallSound(t: Tables, c: Call) {
    c.input.attempt in t.attempts && c.resource == t.attempts[c.input.attempt].resource
      && c.input.site.tenant == c.input.attempt.tenant
  }

  ghost predicate CallsSound(w: World) {
    forall c :: c in w.calls ==> CallSound(w.t, w.calls[c])
  }

  /** An owned attempt is verifying, unless a commit went through whose caller saw an error. */
  predicate Busy(t: Tables, c: Call)
    requires CallSound(t, c)
  {
    var status := t.attempts[c.input.attempt].status;
    status.Verifying? || (status.AttemptActive? && c.phase.Failing?)
  }

  /** Owned attempts have one owner each. */
  ghost predicate OwnersSound(w: World)
    requires CallsSound(w)
  {
    && (forall c :: c in w.calls && Owns(w.calls[c]) ==> Busy(w.t, w.calls[c]))
    && (forall c, d :: c in w.calls && d in w.calls && Owns(w.calls[c]) && Owns(w.calls[d]) && c != d ==>
          w.calls[c].input.attempt != w.calls[d].input.attempt)
  }

  /** A request is only ever sent for an attempt that has left pending, and once. */
  ghost predicate RequestsSound(w: World) {
    && (forall i :: 0 <= i < |w.requests| ==>
          w.requests[i] in w.t.attempts && !w.t.attempts[w.requests[i]].status.AttemptPending?)
    && (forall i, j :: 0 <= i < j < |w.requests| ==> w.requests[i] != w.requests[j])
  }

  ghost predicate ActiveFor(t: Tables, a: Ref, site: SiteRef) {
    a in t.attempts && t.attempts[a].status.AttemptActive? && t.attempts[a].site == Some(site)
  }

  /** Active attempts and the sites created by pairing (all but `initial`) are in bijection, resource by resource. */
  ghost predicate Bijection(t: Tables, initial: set<SiteRef>) {
    && (forall a :: a in t.attempts && t.attempts[a].status.AttemptActive? ==>
          && t.attempts[a].site.Some?
          && t.attempts[a].site.value in t.sites && t.attempts[a].site.value !in initial
          && t.attempts[a].site.value.tenant == a.tenant
          && t.sites[t.attempts[a].site.value].resource == t.attempts[a].resource)
    && (forall a, b, s :: ActiveFor(t, a, s) && ActiveFor(t, b, s) ==> a == b)
    && (forall s :: s in t.sites && s !in initial ==> exists a :: ActiveFor(t, a, s))
    && initial <= t.sites.Keys
  }

  /** Every completion record belongs to an active attempt. */
  ghost predicate RecordsSound(t: Tables) {
    forall k :: k in t.records ==> ActiveFor(t, t.records[k].attempt, t.records[k].site)
  }

  ghost predicate Inv(w: World, initial: set<SiteRef>) {
    CallsSound(w) && OwnersSound(w) && RequestsSound(w) && Bijection(w.t, initial) && RecordsSound(w.t)
  }

  /**
    What any step may do to attempts: none disappears or changes its resource, its verifier's digest
    or its deadline, and status moves along the lifecycle.
  */
  ghost predicate AttemptsAdvance(t: Tables, u: Tables) {
    forall a :: a in t.attempts ==>
      && a in u.attempts
      && u.attempts[a].resource == t.attempts[a].resource
      && u.attempts[a].verifierHash == t.attempts[a].verifierHash
      && u.attempts[a].expiresAt == t.attempts[a].expiresAt
      && (u.attempts[a].status == t.attempts[a].status
          || (t.attempts[a].status.AttemptPending? && u.attempts[a].status.Verifying?)
          || (t.attempts[a].status.Verifying? && (u.attempts[a].status.AttemptActive? || u.attempts[a].status.Failed?)))
      && (t.attempts[a].status.AttemptActive? ==> u.attempts[a] == t.attempts[a])
  }

  lemma StepAdvances(issuer: string, w: World, op: Op)
    ensures AttemptsAdvance(w.t, Next(issuer, w, op).t)
  {
  }

  lemma CommitKeepsBijection(t: Tables, a: Ref, proof: Verified, site: SiteRef, key: string, now: int,
                             initial: set<SiteRef>)
    requires a in t.attempts && site.tenant == a.tenant
    requires Bijection(t, initial) && RecordsSound(t)
    ensures var u := CompleteAttempt(t, a, t.attempts[a].resource, proof, site, key, now).0;
      Bijection(u, initial) && RecordsSound(u)
  {
    var (u, done) := CompleteAttempt(t, a, t.attempts[a].resource, proof, site, key, now);
    if u != t {
      assert ActiveFor(u, a, site);
      forall b, s | ActiveFor(u, b, s) ensures (b == a && s == site) || (b != a && s != site && ActiveFor(t, b, s)) {}
      forall s | s in u.sites && s !in initial ensures exists b :: ActiveFor(u, b, s) {
        if s != site {
          var b :| ActiveFor(t, b, s);
          assert ActiveFor(u, b, s);
        }
      }
      forall k | k in u.records ensures ActiveFor(u, u.records[k].attempt, u.records[k].site) {}
    }
  }

  /** No attempt has become active, and the sites are the same but for their connection. */
  ghost predicate NothingPaired(t: Tables, u: Tables) {
    && u.records == t.records
    && (forall a :: a in u.attempts && u.attempts[a].status.AttemptActive? ==>
          a in t.attempts && u.attempts[a] == t.attempts[a])
    && u.sites.Keys == t.sites.Keys
    && (forall s :: s in t.sites ==> u.sites[s].resource == t.sites[s].resource)
  }

  lemma OnlyCommitPairs(issuer: string, w: World, op: Op)
    requires op.Commit? ==> op.call !in w.calls || !w.calls[op.call].phase.Proved?
    ensures NothingPaired(w.t, Next(issuer, w, op).t)
  {
  }

  lemma OtherKeepsBijection(t: Tables, u: Tables, initial: set<SiteRef>)
    requires Bijection(t, initial) && RecordsSound(t) && AttemptsAdvance(t, u) && NothingPaired(t, u)
    ensures Bijection(u, initial) && RecordsSound(u)
  {
    forall a, s ensures ActiveFor(u, a, s) <==> ActiveFor(t, a, s) {}
  }

  lemma StepKeepsTables(issuer: string, w: World, op: Op, initial: set<SiteRef>)
    requires Inv(w, initial)
    ensures Bijection(Next(issuer, w, op).t, initial) && RecordsSound(Next(issuer, w, op).t)
  {
    StepAdvances(issuer, w, op);
    if op.Commit? && op.call in w.calls && w.calls[op.call].phase.Proved? {
      var c := w.calls[op.call];
      CommitKeepsBijection(w.t, c.input.attempt, c.phase.acceptance.proof, c.input.site, c.input.key, op.now, initial);
    } else {
      OnlyCommitPairs(issuer, w, op);
      OtherKeepsBijection(w.t, Next(issuer, w, op).t, initial);
    }
  }

  lemma StepKeepsCalls(issuer: string, w: World, op: Op)
    requires CallsSound(w)
    ensures CallsSound(Next(issuer, w, op))
  {
    StepAdvances(issuer, w, op);
  }

  /** A step on one owned attempt leaves every other attempt alone. */
  lemma OtherAttemptsStay(issuer: string, w: World, op: Op, a: Ref)
    requires CallsSound(w) && a in w.t.attempts
    requires op.Mark? || op.Commit? || op.GiveUp? ==> op.call in w.calls ==> w.calls[op.call].input.attempt != a
    ensures a in Next(issuer, w, op).t.attempts && Next(issuer, w, op).t.attempts[a] == w.t.attempts[a]
  {
  }

  lemma StepKeepsBusy(issuer: string, w: World, op: Op, c: nat)
    requires CallsSound(w) && OwnersSound(w) && CallsSound(Next(issuer, w, op))
    requires c in Next(issuer, w, op).calls && Owns(Next(issuer, w, op).calls[c])
    ensures Busy(Next(issuer, w, op).t, Next(issuer, w, op).calls[c])
  {
    var v := Next(issuer, w, op);
    var a := v.calls[c].input.attempt;
    if (op.Mark? || op.Commit? || op.GiveUp?) && op.call in w.calls && w.calls[op.call].input.attempt == a {
      if op.call != c {
        assert Busy(w.t, w.calls[c]) && !Owns(w.calls[op.call]);
      }
    } else {
      OtherAttemptsStay(issuer, w, op, a);
    }
  }

  lemma StepKeepsOwners(issuer: string, w: World, op: Op)
    requires CallsSound(w) && OwnersSound(w) && CallsSound(Next(issuer, w, op))
    ensures OwnersSound(Next(issuer, w, op))
  {
    var v := Next(issuer, w, op);
    forall c | c in v.calls && Owns(v.calls[c]) ensures Busy(v.t, v.calls[c]) {
      StepKeepsBusy(issuer, w, op, c);
    }
    forall c, d | c in v.calls && d in v.calls && Owns(v.calls[c]) && Owns(v.calls[d]) && c != d
      ensures v.calls[c].input.attempt != v.calls[d].input.attempt
    {
      OwnersStayApart(issuer, w, op, c, d);
    }
  }

  lemma OwnersStayApart(issuer: string, w: World, op: Op, c: nat, d: nat)
    requires CallsSound(w) && OwnersSound(w)
    requires c in Next(issuer, w, op).calls && d in Next(issuer, w, op).calls && c != d
    requires Owns(Next(issuer, w, op).calls[c]) && Owns(Next(issuer, w, op).calls[d])
    ensures Next(issuer, w, op).calls[c].input.attempt != Next(issuer, w, op).calls[d].input.attempt
  {
    assert c in w.calls && d in w.calls;
    if op.Mark? {
      assert Owns(w.calls[c]) ==> Busy(w.t, w.calls[c]);
      assert Owns(w.calls[d]) ==> Busy(w.t, w.calls[d]);
    }
  }

  lemma StepKeepsRequests(issuer: string, w: World, op: Op)
    requires RequestsSound(w)
    ensures RequestsSound(Next(issuer, w, op))
  {
    StepAdvances(issuer, w, op);
  }

  lemma {:induction false} RunKeepsInv(issuer: string, t: Tables, ops: seq<Op>)
    requires t.attempts == map[] && t.records == map[]
    ensures Inv(Run(issuer, Initial(t), ops), t.sites.Keys)
  {
    if ops != [] {
      var k := |ops| - 1;
      RunKeepsInv(issuer, t, ops[..k]);
      var w := Run(issuer, Initial(t), ops[..k]);
      StepKeepsTables(issuer, w, ops[k], t.sites.Keys);
      StepKeepsCalls(issuer, w, ops[k]);
      StepKeepsOwners(issuer, w, ops[k]);
      StepKeepsRequests(issuer, w, ops[k]);
    }
  }

  // ---------------------------------------------------- every site was proved

  /**
    The proof names this attempt, site, resource and challenge, and is dead at most 65 seconds after
    its acceptance.
  */
  predicate Fits(issuer: string, x: Acceptance) {
    var c := x.proof.claims;
    && c.kind.PairingKind? && c.platformIssuer == issuer && c.decision.None?
    && c.tenant == x.input.attempt.tenant && c.pairingAttemptId == Some(x.input.attempt.id)
    && c.siteId == Some(x.input.site.id) && c.resource == x.resource && c.challenge == x.challenge
    && x.at / SECOND < c.exp <= x.at / SECOND + CLOCK_LEEWAY_SECONDS + SITE_PROOF_TTL_SECONDS
  }

  /** The accepted proof is the one that paired attempt `a` with its site, under the key it was signed with. */
  ghost predicate Paired(w: World, a: Ref, x: Acceptance) {
    && x in w.proofs && x.input.attempt == a && ActiveFor(w.t, a, x.input.site)
    && x.resource == w.t.attempts[a].resource
    && x.input.site in w.t.sites && w.t.sites[x.input.site].publicJwk == x.proof.publicJwk
  }

  predicate CallProved(w: World, c: Call) {
    c.phase.Proved? ==>
      c.phase.acceptance in w.proofs && c.phase.acceptance.input == c.input && c.phase.acceptance.resource == c.resource
  }

  ghost predicate ProofsKept(issuer: string, w: World) {
    && (forall x :: x in w.proofs ==> Fits(issuer, x))
    && (forall c :: c in w.calls ==> CallProved(w, w.calls[c]))
    && (forall a :: a in w.t.attempts && w.t.attempts[a].status.AttemptActive? ==> exists x :: Paired(w, a, x))
  }

  lemma StepKeepsPaired(issuer: string, w: World, op: Op, a: Ref, x: Acceptance)
    requires Paired(w, a, x)
    ensures Paired(Next(issuer, w, op), a, x)
  {
    StepAdvances(issuer, w, op);
  }

  lemma StepKeepsProofs(issuer: string, w: World, op: Op)
    requires CallsSound(w) && ProofsKept(issuer, w)
    ensures ProofsKept(issuer, Next(issuer, w, op))
  {
    var v := Next(issuer, w, op);
    forall c | c in v.calls ensures CallProved(v, v.calls[c]) {
      if c in w.calls { assert CallProved(w, w.calls[c]); }
    }
    forall a | a in v.t.attempts && v.t.attempts[a].status.AttemptActive? ensures exists x :: Paired(v, a, x) {
      if a in w.t.attempts && w.t.attempts[a].status.AttemptActive? {
        var x :| Paired(w, a, x);
        StepKeepsPaired(issuer, w, op, a, x);
      } else {
        BecomesPaired(issuer, w, op, a);
      }
    }
  }

  lemma BecomesPaired(issuer: string, w: World, op: Op, a: Ref)
    requires CallsSound(w) && forall c :: c in w.calls ==> CallProved(w, w.calls[c])
    requires a in Next(issuer, w, op).t.attempts && Next(issuer, w, op).t.attempts[a].status.AttemptActive?
    requires a in w.t.attempts ==> !w.t.attempts[a].status.AttemptActive?
    ensures op.Commit? && op.call in w.calls && w.calls[op.call].phase.Proved?
    ensures Paired(Next(issuer, w, op), a, w.calls[op.call].phase.acceptance)
  {
    if op.Commit? && op.call in w.calls {
      assert CallProved(w, w.calls[op.call]) && CallSound(w.t, w.calls[op.call]);
    }
  }

  /**
    Every active attempt has in its history an accepted proof for exactly it, its
    site, tenant, resource and challenge, and the site holds the key that signed it.
  */
  lemma {:induction false} ActiveSiteWasProved(issuer: string, t: Tables, ops: seq<Op>)
    requires t.attempts == map[] && t.records == map[]
    ensures ProofsKept(issuer, Run(issuer, Initial(t), ops))
  {
    if ops != [] {
      var k := |ops| - 1;
      ActiveSiteWasProved(issuer, t, ops[..k]);
      RunKeepsInv(issuer, t, ops[..k]);
      StepKeepsProofs(issuer, Run(issuer, Initial(t), ops[..k]), ops[k]);
    }
  }

  // ----------------------------------------------------------- main results

  /** In every reachable state the sites created by pairing and the active attempts are in bijection. */
  lemma PairingIsBijective(issuer: string, t: Tables, ops: seq<Op>)
    requires t.attempts == map[] && t.records == map[]
    ensures Bijection(Run(issuer, Initial(t), ops).t, t.sites.Keys)
  {
    RunKeepsInv(issuer, t, ops);
  }

  /** Each attempt triggers at most one outbound proof request. */
  lemma OneRequestPerAttempt(issuer: string, t: Tables, ops: seq<Op>, i: nat, j: nat)
    requires t.attempts == map[] && t.records == map[]
    requires i < j < |Run(issuer, Initial(t), ops).requests|
    ensures Run(issuer, Initial(t), ops).requests[i] != Run(issuer, Initial(t), ops).requests[j]
  {
    RunKeepsInv(issuer, t, ops);
  }

  /** An attempt that is failed, or active with its site, stays so: a late failure report changes nothing. */
  lemma {:induction false} OutcomeIsFinal(issuer: string, w: World, ops: seq<Op>, a: Ref)
    requires a in w.t.attempts && (w.t.attempts[a].status.AttemptActive? || w.t.attempts[a].status.Failed?)
    ensures a in Run(issuer, w, ops).t.attempts
    ensures Run(issuer, w, ops).t.attempts[a].status == w.t.attempts[a].status
    ensures w.t.attempts[a].status.AttemptActive? ==> Run(issuer, w, ops).t.attempts[a] == w.t.attempts[a]
  {
    if ops != [] {
      OutcomeIsFinal(issuer, w, ops[..|ops| - 1], a);
      StepAdvances(issuer, Run(issuer, w, ops[..|ops| - 1]), ops[|ops| - 1]);
    }
  }

  /** No completion ever succeeds by replaying a record: success always creates the site and activates the attempt. */
  lemma CompletionNeverReplays(issuer: string, t: Tables, ops: seq<Op>, call: nat, now: int)
    requires t.attempts == map[] && t.records == map[]
    requires var w := Run(issuer, Initial(t), ops);
      call in w.calls && w.calls[call].phase.Proved?
    ensures var w := Run(issuer, Initial(t), ops);
      var c := w.calls[call];
      var (u, done) := CompleteAttempt(w.t, c.input.attempt, c.resource, c.phase.acceptance.proof, c.input.site,
                                       c.input.key, now);
      && (done.Ok? <==> u != w.t)
      && (done.Ok? ==> c.input.site !in w.t.sites && ActiveFor(u, c.input.attempt, c.input.site))
  {
    RunKeepsInv(issuer, t, ops);
  }
}
