/**
  The consent protocol: the service looks a grant up in one transaction, checks
  the site's proof, and settles the grant in another. Any number of calls
  interleave with each other and with revocations.
*/
module Consent {
  import opened Prelude
  import opened GrantRegistry
  import opened SiteProof
  import RegistryMeaning

  const CONSENT_TTL: int := 120 * SECOND

  // ----------------------------------------------------------------- begin

  datatype BeginInput = BeginInput(
    grantId: string, site: SiteRef, subject: string, client: string, scopes: seq<string>,
    resource: string, consentVersion: string, key: string)

  datatype ConsentRequest = ConsentRequest(
    issuer: string, site: SiteRef, grantId: string, subject: string, client: string,
    resource: string, scopes: seq<string>, challenge: string, iat: int, exp: int)

  datatype BeginReply = BeginReply(grantId: string, request: ConsentRequest, challenge: string, expiresAt: int)

  /** The digest of everything a retry must repeat; the proposed grant id is not part of it. */
  function RequestOf(i: BeginInput): Digest {
    RequestDigest(i.site, i.subject, i.client, i.scopes, i.resource, i.consentVersion, i.key)
  }

  function TermsOf(i: BeginInput, challenge: string, now: int): Terms {
    Terms(i.site, i.subject, i.client, i.scopes, Sha(challenge), now + CONSENT_TTL, now)
  }

  function ReplyOf(issuer: string, i: BeginInput, challenge: string, c: Created): BeginReply {
    BeginReply(c.id,
               ConsentRequest(issuer, i.site, c.id, i.subject, i.client, i.resource, i.scopes, challenge,
                              c.createdAt / SECOND, c.expiresAt / SECOND),
               challenge, c.expiresAt)
  }

  function BeginConsent(r: Registry, issuer: string, i: BeginInput, challenge: string, now: int)
    : (Registry, Result<BeginReply>)
  {
    var (s, created) := CreatePending(r, i.grantId, TermsOf(i, challenge, now), i.resource, i.key, RequestOf(i));
    (s, if created.Ok? then Ok(ReplyOf(issuer, i, challenge, created.value)) else Err(created.error))
  }

  // -------------------------------------------------------------- complete

  /** An accepted proof: what a call carries from its first transaction to its second. */
  datatype Acceptance = Acceptance(
    tenant: string, grantId: string, key: string, decision: Decision, proof: Verified, at: int)

  datatype CompleteInput = CompleteInput(
    tenant: string, grantId: string, proof: Jws, challenge: string, decision: Decision, key: string)

  function ExpectationOf(issuer: string, host: string, f: Found, challenge: string, decision: Decision): Expected {
    Expected(ConsentKind, issuer, f.terms.site.tenant, f.resource, host, challenge,
             None, Some(f.terms.site.id), None, None,
             Some(f.id), Some(f.terms.client), Some(f.terms.subject), Some(f.terms.scopes), Some(decision))
  }

  /**
    The first half of `complete`: find the grant, check the challenge and the proof. `host` is the
    resource's host name.
  */
  function Look(r: Registry, issuer: string, host: string, i: CompleteInput, now: int): Result<Acceptance>
    requires Linked(r)
  {
    var found := FindPending(r, i.tenant, i.grantId, i.key);
    if found.None? || (!found.value.completionReplay && found.value.terms.consentExpiresAt <= now) then
      Err("grant_not_pending")
    else if Sha(i.challenge) != found.value.terms.challengeHash then Err("consent_challenge_invalid")
    else
      var proof := VerifySiteProof(i.proof, found.value.publicJwk,
                                   ExpectationOf(issuer, host, found.value, i.challenge, i.decision), now);
      if proof.Err? then Err(proof.error)
      else Ok(Acceptance(i.tenant, i.grantId, i.key, i.decision, proof.value, now))
  }

  function StatusFor(d: Decision): GrantStatus {
    if d.Approved? then Active else Revoked
  }

  /** The second half: activate or deny. */
  function Finish(r: Registry, a: Acceptance, now: int): (Registry, Result<()>) {
    Settle(r, a.tenant, a.grantId, a.key, a.proof.thumbprint, StatusFor(a.decision), now)
  }

  // ------------------------------------------------- what an answer stands for

  /** The record of a begun consent points to a grant on the terms that its digest was taken of. */
  predicate FiledAs(k: RecordKey, d: Digest, t: Terms) {
    && d.RequestDigest?
    && k.tenant == t.site.tenant && k.key == d.idempotencyKey
    && d.site == t.site && d.subject == t.subject && d.client == t.client && d.scopes == t.scopes
  }

  ghost predicate Filed(r: Registry) {
    forall k :: k in r.records && k.operation.GrantCreate? ==>
      && r.records[k].reference in r.grants
      && FiledAs(k, r.records[k].digest, r.grants[r.records[k].reference].terms)
  }

  predicate OnTerms(t: Terms, i: BeginInput) {
    t.site == i.site && t.subject == i.subject && t.client == i.client && t.scopes == i.scopes
  }

  /** What a caller of `begin` holds on success: the record of this tenant, key and request, and the grant it names. */
  predicate Begun(r: Registry, i: BeginInput, reply: BeginReply) {
    && RecordKey(i.site.tenant, GrantCreate, i.key) in r.records
    && r.records[RecordKey(i.site.tenant, GrantCreate, i.key)] == Record(RequestOf(i), reply.grantId)
    && reply.grantId in r.grants
    && reply.expiresAt == r.grants[reply.grantId].terms.consentExpiresAt
    && reply.request.iat == r.grants[reply.grantId].terms.createdAt / SECOND
  }

  /** The answer to any later `begin` of the same tenant and key: the first one with a new challenge, or a refusal. */
  function RetryReply(i: BeginInput, first: BeginReply, j: BeginInput, challenge: string): Result<BeginReply> {
    if RequestOf(j) == RequestOf(i)
    then Ok(first.(challenge := challenge, request := first.request.(challenge := challenge)))
    else Err("idempotency_conflict")
  }

  /**
    Nothing that completes with this tenant and key changes the registry, and only the same grant
    and signer succeed.
  */
  ghost predicate KeyIsSpent(r: Registry, a: Acceptance) {
    forall b: Acceptance, later: int :: b.tenant == a.tenant && b.key == a.key ==>
      Finish(r, b, later)
        == (r, if b.grantId == a.grantId && b.proof.thumbprint == a.proof.thumbprint then Ok(())
               else Err("idempotency_conflict"))
  }

  /** The acceptance proves the site's decision on exactly this grant. */
  ghost predicate Proves(issuer: string, a: Acceptance, id: string, g: Grant, s: Site) {
    var c := a.proof.claims;
    && a.grantId == id && c.kind.ConsentKind? && c.platformIssuer == issuer
    && c.grantId == Some(id) && c.decision == Some(a.decision)
    && a.tenant == g.terms.site.tenant == c.tenant && c.siteId == Some(g.terms.site.id)
    && c.subjectId == Some(g.terms.subject) && c.clientId == Some(g.terms.client)
    && (if c.scope.Some? then c.scope.value else []) == g.terms.scopes
    && c.resource == s.resource && c.aud == Some(s.resource)
    && Sha(c.challenge) == g.terms.challengeHash
    && a.proof.publicJwk == s.publicJwk && a.proof.thumbprint == Thumbprint(s.publicJwk)
    && a.at / SECOND < c.exp <= a.at / SECOND + CLOCK_LEEWAY_SECONDS + SITE_PROOF_TTL_SECONDS
  }

  ghost predicate AcceptanceHolds(issuer: string, r: Registry, a: Acceptance)
    requires Linked(r)
  {
    a.grantId in r.grants && Proves(issuer, a, a.grantId, r.grants[a.grantId], r.sites[r.grants[a.grantId].terms.site])
  }

  lemma LookProves(r: Registry, issuer: string, host: string, i: CompleteInput, now: int)
    requires Linked(r) && Look(r, issuer, host, i, now).Ok?
    ensures AcceptanceHolds(issuer, r, Look(r, issuer, host, i, now).value)
  {
    var found := FindPending(r, i.tenant, i.grantId, i.key).value;
    AcceptedProofIsShortLived(i.proof, found.publicJwk, ExpectationOf(issuer, host, found, i.challenge, i.decision),
                              now);
  }

  // ---------------------------------------------------------- the services

  class PostgresGrantRepository {
    var registry: Registry

    constructor (registry: Registry)
      ensures this.registry == registry
    {
      this.registry := registry;
    }

    method CreatePending(id: string, t: Terms, resource: string, key: string, digest: Digest)
      returns (result: Result<Created>)
      modifies this
      ensures (registry, result) == GrantRegistry.CreatePending(old(registry), id, t, resource, key, digest)
      ensures result.Err? ==> registry == old(registry)
      // A repetition, under whatever fresh id and terms, gets the same answer and creates nothing; another
      // digest is refused.
      ensures result.Ok? ==> forall id': string, t': Terms, other: Digest :: t'.site.tenant == t.site.tenant ==>
        GrantRegistry.CreatePending(registry, id', t', resource, key, other)
          == (registry, if other == digest then result else Err("idempotency_conflict"))
    {
      var k := RecordKey(t.site.tenant, GrantCreate, key);
      if k in registry.records && registry.records[k].reference in registry.grants {
        var prior := registry.records[k];
        if prior.digest != digest {
          return Err("idempotency_conflict");
        }
        var terms := registry.grants[prior.reference].terms;
        return Ok(Created(prior.reference, terms.createdAt, terms.consentExpiresAt));
      }
      if t.site !in registry.sites || registry.sites[t.site].resource != resource
         || !registry.sites[t.site].status.SiteActive? {
        return Err("active_site_not_found");
      }
      if id in registry.grants || k in registry.records || Consented(registry, t) {
        return Err("unique_violation");
      }
      registry := registry.(grants := registry.grants[id := Grant(t, Pending)]);
      registry := registry.(records := registry.records[k := Record(digest, id)]);
      result := Ok(Created(id, t.createdAt, t.consentExpiresAt));
    }

    method Complete(tenant: string, id: string, key: string, thumbprint: string, status: GrantStatus, now: int)
      returns (result: Result<()>)
      modifies this
      ensures (registry, result) == Settle(old(registry), tenant, id, key, thumbprint, status, now)
      ensures result.Err? ==> registry == old(registry)
      // Under a new key: exactly a pending, unexpired grant of the tenant gets the status, and no other grant changes.
      ensures RecordKey(tenant, GrantComplete, key) !in old(registry).records ==>
        (result.Ok? <==>
          && id in old(registry).grants && old(registry).grants[id].terms.site.tenant == tenant
          && old(registry).grants[id].status == Pending && now < old(registry).grants[id].terms.consentExpiresAt)
      ensures RecordKey(tenant, GrantComplete, key) !in old(registry).records && result.Ok? ==>
        registry.grants == old(registry).grants[id := Grant(old(registry).grants[id].terms, status)]
      // A repetition succeeds and changes nothing, also with the other decision.
      ensures result.Ok? ==>
        forall other, later :: Settle(registry, tenant, id, key, thumbprint, other, later) == (registry, Ok(()))
    {
      var k := RecordKey(tenant, GrantComplete, key);
      var digest := CompletionDigest(id, thumbprint);
      if k in registry.records {
        if registry.records[k].digest != digest || registry.records[k].reference != id {
          return Err("idempotency_conflict");
        }
        return Ok(());
      }
      if id !in registry.grants || registry.grants[id].terms.site.tenant != tenant
         || !registry.grants[id].status.Pending? || registry.grants[id].terms.consentExpiresAt <= now {
        return Err("grant_completion_replay");
      }
      registry := registry.(grants := registry.grants[id := registry.grants[id].(status := status)]);
      registry := registry.(records := registry.records[k := Record(digest, id)]);
      result := Ok(());
    }
  }

  class GrantService {
    const repository: PostgresGrantRepository
    const issuer: string

    constructor (repository: PostgresGrantRepository, issuer: string)
      ensures this.repository == repository && this.issuer == issuer
    {
      this.repository := repository;
      this.issuer := issuer;
    }

    method Begin(i: BeginInput, challenge: string, now: int) returns (result: Result<BeginReply>)
      modifies repository
      ensures (repository.registry, result) == BeginConsent(old(repository.registry), issuer, i, challenge, now)
      ensures result.Err? ==> repository.registry == old(repository.registry)
      ensures result.Ok? ==> Begun(repository.registry, i, result.value)
      // The request to sign repeats the input, for the grant and the times returned.
      ensures result.Ok? ==>
        var q := result.value.request;
        && q.issuer == issuer && q.site == i.site && q.subject == i.subject && q.client == i.client
        && q.resource == i.resource && q.scopes == i.scopes && q.challenge == challenge == result.value.challenge
        && q.grantId == result.value.grantId && q.exp == result.value.expiresAt / 1_000_000
      // A new consent is pending for two minutes, under the challenge's digest.
      ensures result.Ok? && RecordKey(i.site.tenant, GrantCreate, i.key) !in old(repository.registry).records ==>
        && result.value.grantId == i.grantId && i.grantId !in old(repository.registry).grants
        && result.value.expiresAt == now + 120_000_000 && result.value.request.iat == now / 1_000_000
        && repository.registry.grants == old(repository.registry).grants[i.grantId :=
             Grant(Terms(i.site, i.subject, i.client, i.scopes, Sha(challenge), now + 120_000_000, now), Pending)]
      ensures Filed(old(repository.registry)) ==> Filed(repository.registry)
      ensures Filed(old(repository.registry)) && result.Ok? ==>
        OnTerms(repository.registry.grants[result.value.grantId].terms, i)
      ensures result.Ok? ==> forall j: BeginInput, challenge': string, later: int ::
        j.site.tenant == i.site.tenant && j.key == i.key ==>
          BeginConsent(repository.registry, issuer, j, challenge', later)
            == (repository.registry, RetryReply(i, result.value, j, challenge'))
    {
      var created := repository.CreatePending(i.grantId, TermsOf(i, challenge, now), i.resource, i.key, RequestOf(i));
      if created.Err? {
        return Err(created.error);
      }
      result := Ok(ReplyOf(issuer, i, challenge, created.value));
    }

    /** A call none of whose transactions another call comes between. */
    method Complete(i: CompleteInput, host: string, now: int, commitNow: int) returns (result: Result<Verified>)
      requires Linked(repository.registry)
      modifies repository
      ensures var seen := Look(old(repository.registry), issuer, host, i, now);
        if seen.Err? then repository.registry == old(repository.registry) && result == Err(seen.error)
        else
          var (after, settled) := Finish(old(repository.registry), seen.value, commitNow);
          && repository.registry == after
          && result == if settled.Ok? then Ok(seen.value.proof) else Err(settled.error)
      ensures Linked(repository.registry)
      ensures result.Err? ==> repository.registry == old(repository.registry)
      ensures result.Ok? ==>
        var a := Acceptance(i.tenant, i.grantId, i.key, i.decision, result.value, now);
        AcceptanceHolds(issuer, repository.registry, a) && KeyIsSpent(repository.registry, a)
      // The first success decides: the pending grant becomes active if the site approved it, and revoked if it denied.
      ensures result.Ok? && RecordKey(i.tenant, GrantComplete, i.key) !in old(repository.registry).records ==>
        var before := old(repository.registry).grants;
        && i.grantId in before && before[i.grantId].terms.site.tenant == i.tenant
        && before[i.grantId].status == Pending && commitNow < before[i.grantId].terms.consentExpiresAt
        && repository.registry.grants == before[i.grantId :=
             Grant(before[i.grantId].terms, match i.decision case Approved => Active case Denied => Revoked)]
    {
      var seen := Look(repository.registry, issuer, host, i, now);
      if seen.Err? {
        return Err(seen.error);
      }
      var a := seen.value;
      var settled := repository.Complete(a.tenant, a.grantId, a.key, a.proof.thumbprint, StatusFor(a.decision),
                                         commitNow);
      result := if settled.Ok? then Ok(a.proof) else Err(settled.error);
    }
  }

  // ------------------------------------------------------------------ runs

  /** The tables, the calls between their two transactions, and every acceptance so far. */
  datatype World = World(registry: Registry, calls: map<nat, Acceptance>, history: seq<Acceptance>)

  datatype Op =
    | BeginCall(request: BeginInput, challenge: string, now: int)
    | LookCall(call: nat, i: CompleteInput, host: string, now: int)
    | FinishCall(call: nat, now: int)
    | Platform(op: GrantRegistry.Op)

  /** Repository transactions outside the service: everything but creating and completing a consent. */
  predicate External(op: GrantRegistry.Op) {
    !op.Create? && !op.Complete?
  }

  ghost function Next(issuer: string, w: World, op: Op): World
    requires Linked(w.registry)
  {
    match op
    case BeginCall(i, challenge, now) => w.(registry := BeginConsent(w.registry, issuer, i, challenge, now).0)
    case LookCall(call, i, host, now) =>
      var seen := Look(w.registry, issuer, host, i, now);
      if seen.Err? then w
      else w.(calls := w.calls[call := seen.value], history := w.history + [seen.value])
    case FinishCall(call, now) =>
      if call in w.calls then World(Finish(w.registry, w.calls[call], now).0, w.calls - {call}, w.history) else w
    case Platform(op) => if External(op) then w.(registry := GrantRegistry.Next(w.registry, op)) else w
  }

  lemma StepAdvances(issuer: string, w: World, op: Op)
    requires Linked(w.registry)
    ensures Advances(w.registry, Next(issuer, w, op).registry)
  {
    match op
    case BeginCall(i, challenge, now) =>
      NextAdvances(w.registry, Create(i.grantId, TermsOf(i, challenge, now), i.resource, i.key, RequestOf(i)));
    case FinishCall(call, now) =>
      if call in w.calls {
        var a := w.calls[call];
        NextAdvances(w.registry, Complete(a.tenant, a.grantId, a.key, a.proof.thumbprint, a.decision.Approved?, now));
      }
    case Platform(op) => NextAdvances(w.registry, op);
    case _ =>
  }

  ghost function Run(issuer: string, w: World, ops: seq<Op>): (v: World)
    requires Linked(w.registry)
    ensures Linked(v.registry)
  {
    if ops == [] then w
    else
      var v := Run(issuer, w, ops[..|ops| - 1]);
      StepAdvances(issuer, v, ops[|ops| - 1]);
      Next(issuer, v, ops[|ops| - 1])
  }

  lemma ForwardTransitive(a: Registry, b: Registry, c: Registry)
    requires Advances(a, b) && Advances(b, c)
    ensures Advances(a, c)
  {
    forall id | id in a.grants ensures id in c.grants && c.grants[id].terms == a.grants[id].terms
      && Forward(a.grants[id].status, c.grants[id].status)
    {
      assert id in b.grants;
    }
    forall k | k in a.sites ensures k in c.sites && c.sites[k].resource == a.sites[k].resource
      && c.sites[k].publicJwk == a.sites[k].publicJwk
    {
      assert k in b.sites;
    }
    forall k | k in a.records ensures k in c.records && c.records[k] == a.records[k] {
      assert k in b.records;
    }
  }

  /** Over any run a grant moves pending to active, or to revoked, and never back; its terms never change. */
  lemma {:induction false} RunAdvances(issuer: string, w: World, ops: seq<Op>)
    requires Linked(w.registry)
    ensures Advances(w.registry, Run(issuer, w, ops).registry)
  {
    if ops != [] {
      var k := |ops| - 1;
      RunAdvances(issuer, w, ops[..k]);
      StepAdvances(issuer, Run(issuer, w, ops[..k]), ops[k]);
      ForwardTransitive(w.registry, Run(issuer, w, ops[..k]).registry, Run(issuer, w, ops).registry);
    }
  }

  // ----------------------------------------------------- approval required

  ghost predicate Approval(issuer: string, w: World, id: string, a: Acceptance)
    requires Linked(w.registry)
  {
    a in w.history && a.grantId == id && a.decision.Approved? && AcceptanceHolds(issuer, w.registry, a)
  }

  ghost predicate ApprovalsKept(issuer: string, w: World)
    requires Linked(w.registry)
  {
    && (forall a :: a in w.history ==> AcceptanceHolds(issuer, w.registry, a))
    && (forall c :: c in w.calls ==> w.calls[c] in w.history)
    && (forall id :: id in w.registry.grants && w.registry.grants[id].status.Active? ==>
          exists a :: Approval(issuer, w, id, a))
  }

  lemma AcceptanceLasts(issuer: string, r: Registry, s: Registry, a: Acceptance)
    requires Linked(r) && Advances(r, s) && AcceptanceHolds(issuer, r, a)
    ensures AcceptanceHolds(issuer, s, a)
  {
    assert r.grants[a.grantId].terms.site in r.sites;
  }

  lemma StepKeepsApprovals(issuer: string, w: World, op: Op)
    requires Linked(w.registry) && ApprovalsKept(issuer, w)
    ensures Linked(Next(issuer, w, op).registry) && ApprovalsKept(issuer, Next(issuer, w, op))
  {
    StepAdvances(issuer, w, op);
    var v := Next(issuer, w, op);
    if op.LookCall? && Look(w.registry, issuer, op.host, op.i, op.now).Ok? {
      LookProves(w.registry, issuer, op.host, op.i, op.now);
    }
    forall a | a in v.history ensures AcceptanceHolds(issuer, v.registry, a) {
      if a in w.history {
        AcceptanceLasts(issuer, w.registry, v.registry, a);
      }
    }
    forall id | id in v.registry.grants && v.registry.grants[id].status.Active?
      ensures exists a :: Approval(issuer, v, id, a)
    {
      ApprovalKept(issuer, w, op, id);
    }
  }

  lemma ApprovalKept(issuer: string, w: World, op: Op, id: string)
    requires Linked(w.registry) && ApprovalsKept(issuer, w)
    requires id in Next(issuer, w, op).registry.grants && Next(issuer, w, op).registry.grants[id].status.Active?
    ensures Linked(Next(issuer, w, op).registry)
    ensures exists a :: Approval(issuer, Next(issuer, w, op), id, a)
  {
    StepAdvances(issuer, w, op);
    var v := Next(issuer, w, op);
    if id in w.registry.grants && w.registry.grants[id].status.Active? {
      var a :| Approval(issuer, w, id, a);
      AcceptanceLasts(issuer, w.registry, v.registry, a);
      assert Approval(issuer, v, id, a);
    } else {
      BecomesActive(issuer, w, op, id);
      AcceptanceLasts(issuer, w.registry, v.registry, w.calls[op.call]);
      assert Approval(issuer, v, id, w.calls[op.call]);
    }
  }

  lemma PlatformNeverActivates(r: Registry, op: GrantRegistry.Op, id: string)
    requires Linked(r) && External(op)
    requires id in GrantRegistry.Next(r, op).grants && GrantRegistry.Next(r, op).grants[id].status.Active?
    ensures id in r.grants && r.grants[id].status.Active?
  {
  }

  lemma BeginNeverActivates(issuer: string, r: Registry, i: BeginInput, challenge: string, now: int, id: string)
    requires id in BeginConsent(r, issuer, i, challenge, now).0.grants
    requires BeginConsent(r, issuer, i, challenge, now).0.grants[id].status.Active?
    ensures id in r.grants && r.grants[id].status.Active?
  {
  }

  /** Only the second half of an approved completion activates a grant. */
  lemma BecomesActive(issuer: string, w: World, op: Op, id: string)
    requires Linked(w.registry)
    requires id in Next(issuer, w, op).registry.grants && Next(issuer, w, op).registry.grants[id].status.Active?
    requires id in w.registry.grants ==> !w.registry.grants[id].status.Active?
    ensures op.FinishCall? && op.call in w.calls && w.calls[op.call].grantId == id
    ensures w.calls[op.call].decision.Approved?
  {
    if op.Platform? && External(op.op) {
      PlatformNeverActivates(w.registry, op.op, id);
    } else if op.BeginCall? {
      BeginNeverActivates(issuer, w.registry, op.request, op.challenge, op.now, id);
    }
  }

  /**
    Every active grant has in its history a proof accepted for it: signed by its
    site's key, approving exactly its tenant, site, subject, client, scopes,
    resource and challenge, and dead at most 65 seconds after its acceptance.
  */
  lemma {:induction false} ActiveGrantWasApproved(issuer: string, registry: Registry, ops: seq<Op>)
    requires registry.grants == map[]
    ensures ApprovalsKept(issuer, Run(issuer, World(registry, map[], []), ops))
  {
    if ops != [] {
      var k := |ops| - 1;
      ActiveGrantWasApproved(issuer, registry, ops[..k]);
      StepKeepsApprovals(issuer, Run(issuer, World(registry, map[], []), ops[..k]), ops[k]);
    }
  }

  // ----------------------------------------------------- what completes does

  /**
    The first half of a completion succeeds exactly when the consent is the
    tenant's, on an active site, pending and unexpired or completed under this very
    key, its challenge hashes to the stored digest, and the proof verifies under
    the site's key for exactly this consent and decision.
  */
  lemma LookMeaning(r: Registry, issuer: string, host: string, i: CompleteInput, now: int)
    requires Linked(r)
    ensures Look(r, issuer, host, i, now).Ok? <==>
      && i.grantId in r.grants
      && var g := r.grants[i.grantId];
        var s, k := r.sites[g.terms.site], RecordKey(i.tenant, GrantComplete, i.key);
        && g.terms.site.tenant == i.tenant && s.status == SiteActive
        && ((k in r.records && r.records[k].reference == i.grantId)
            || (g.status == Pending && now < g.terms.consentExpiresAt))
        && g.terms.challengeHash == Sha(i.challenge)
        && VerifySiteProof(i.proof, s.publicJwk,
                           Expected(ConsentKind, issuer, i.tenant, s.resource, host, i.challenge, None,
                                    Some(g.terms.site.id), None, None, Some(i.grantId), Some(g.terms.client),
                                    Some(g.terms.subject), Some(g.terms.scopes), Some(i.decision)), now).Ok?
    ensures Look(r, issuer, host, i, now).Ok? ==>
      var a := Look(r, issuer, host, i, now).value;
      && a.tenant == i.tenant && a.grantId == i.grantId && a.key == i.key && a.decision == i.decision && a.at == now
      && i.proof.claims == Some(a.proof.claims) && a.proof.thumbprint == i.proof.signer
  {
    RegistryMeaning.FindMeaning(r, i.tenant, i.grantId, i.key);
  }

  /**
    A call that carries an accepted proof to its end under a new key decides a
    pending, unexpired grant: active if the site approved it, revoked if it denied,
    with its terms and every other grant as they were. From then on it is decided
    for good, and a denial stays a denial, whatever else happens; without platform
    steps it never changes again. In any other case nothing changes.
  */
  lemma CompletionDecides(issuer: string, w: World, call: nat, now: int, ops: seq<Op>)
    requires Linked(w.registry) && call in w.calls
    requires RecordKey(w.calls[call].tenant, GrantComplete, w.calls[call].key) !in w.registry.records
    ensures var a, v := w.calls[call], Next(issuer, w, FinishCall(call, now));
      if a.grantId in w.registry.grants && w.registry.grants[a.grantId].terms.site.tenant == a.tenant
         && w.registry.grants[a.grantId].status == Pending
         && now < w.registry.grants[a.grantId].terms.consentExpiresAt
      then
        && v.registry.grants == w.registry.grants[a.grantId :=
             Grant(w.registry.grants[a.grantId].terms, match a.decision case Approved => Active case Denied => Revoked)]
        && Linked(v.registry)
        && var after := Run(issuer, v, ops).registry.grants;
          && a.grantId in after && after[a.grantId].status != Pending
          && (a.decision == Denied ==> after[a.grantId].status == Revoked)
          && ((forall k :: 0 <= k < |ops| ==> !ops[k].Platform?) ==> after[a.grantId] == v.registry.grants[a.grantId])
      else v.registry == w.registry
  {
    var a, v := w.calls[call], Next(issuer, w, FinishCall(call, now));
    RegistryMeaning.SettleMeaning(w.registry, a.tenant, a.grantId, a.key, a.proof.thumbprint, StatusFor(a.decision),
                                  now);
    StepAdvances(issuer, w, FinishCall(call, now));
    if a.grantId in v.registry.grants && v.registry.grants[a.grantId].status != Pending {
      RunAdvances(issuer, v, ops);
      if forall k :: 0 <= k < |ops| ==> !ops[k].Platform? {
        FirstDecisionWins(issuer, v, ops, a.grantId);
      }
    }
  }

  // ---------------------------------------------------- first decision wins

  /** Once decided, no consent call changes a grant, with whichever key and decision it comes. */
  lemma {:induction false} FirstDecisionWins(issuer: string, w: World, ops: seq<Op>, id: string)
    requires Linked(w.registry) && id in w.registry.grants && !w.registry.grants[id].status.Pending?
    requires forall k :: 0 <= k < |ops| ==> !ops[k].Platform?
    ensures id in Run(issuer, w, ops).registry.grants
    ensures Run(issuer, w, ops).registry.grants[id] == w.registry.grants[id]
  {
    if ops != [] {
      var k := |ops| - 1;
      FirstDecisionWins(issuer, w, ops[..k], id);
      DecidedStays(issuer, Run(issuer, w, ops[..k]), ops[k], id);
    }
  }

  lemma DecidedStays(issuer: string, w: World, op: Op, id: string)
    requires Linked(w.registry) && id in w.registry.grants && !w.registry.grants[id].status.Pending? && !op.Platform?
    ensures id in Next(issuer, w, op).registry.grants
    ensures Next(issuer, w, op).registry.grants[id] == w.registry.grants[id]
  {
  }

  /** A completion key that has been used is inert for good, also for a call that carries the other decision. */
  lemma UsedKeyIsInert(issuer: string, w: World, ops: seq<Op>, a: Acceptance, now: int)
    requires Linked(w.registry) && Finish(w.registry, a, now).1.Ok?
    ensures Linked(Finish(w.registry, a, now).0)
    ensures KeyIsSpent(Run(issuer, w.(registry := Finish(w.registry, a, now).0), ops).registry, a)
  {
    NextAdvances(w.registry, Complete(a.tenant, a.grantId, a.key, a.proof.thumbprint, a.decision.Approved?, now));
    var first := Finish(w.registry, a, now).0;
    assert RecordKey(a.tenant, GrantComplete, a.key) in first.records;
    RunAdvances(issuer, w.(registry := first), ops);
  }

  // --------------------------------------------------- idempotent creation

  /**
    Grant creation is idempotent end to end: however the run continues, a retry
    with the tenant and key of a successful begin creates nothing. An equal retry
    gets the same grant, times and signed payload, and its challenge hashes to the
    stored one exactly when its challenge factory repeated itself; an unequal one
    is refused.
  */
  lemma BeginIsIdempotent(issuer: string, w: World, i: BeginInput, challenge: string, now: int, ops: seq<Op>,
                          j: BeginInput, challenge': string, later: int)
    requires Linked(w.registry) && BeginConsent(w.registry, issuer, i, challenge, now).1.Ok?
    requires j.site.tenant == i.site.tenant && j.key == i.key
    ensures Linked(BeginConsent(w.registry, issuer, i, challenge, now).0)
    ensures var (created, first) := BeginConsent(w.registry, issuer, i, challenge, now);
      var after := Run(issuer, w.(registry := created), ops).registry;
      var (s, retry) := BeginConsent(after, issuer, j, challenge', later);
      && s == after
      && retry == RetryReply(i, first.value, j, challenge')
      && (retry.Ok? ==>
            && first.value.grantId in s.grants
            && (i.grantId !in w.registry.grants && first.value.grantId == i.grantId ==>
                  (Sha(retry.value.challenge) == s.grants[first.value.grantId].terms.challengeHash <==>
                    challenge' == challenge)))
  {
    NextAdvances(w.registry, Create(i.grantId, TermsOf(i, challenge, now), i.resource, i.key, RequestOf(i)));
    var created := BeginConsent(w.registry, issuer, i, challenge, now).0;
    var k := RecordKey(i.site.tenant, GrantCreate, i.key);
    assert k in created.records && created.records[k].digest == RequestOf(i)
      && created.records[k].reference in created.grants;
    RunAdvances(issuer, w.(registry := created), ops);
  }

  lemma ExternalKeepsRecords(r: Registry, op: GrantRegistry.Op)
    requires Linked(r) && External(op)
    ensures GrantRegistry.Next(r, op).records == r.records
  {
  }

  lemma ExternalKeepsFiled(r: Registry, op: GrantRegistry.Op)
    requires Linked(r) && External(op) && Filed(r)
    ensures Filed(GrantRegistry.Next(r, op))
  {
    NextAdvances(r, op);
    ExternalKeepsRecords(r, op);
  }

  lemma StepKeepsFiled(issuer: string, w: World, op: Op)
    requires Linked(w.registry) && Filed(w.registry)
    ensures Filed(Next(issuer, w, op).registry)
  {
    match op
    case Platform(op) =>
      if External(op) {
        ExternalKeepsFiled(w.registry, op);
      }
    case _ =>
  }

  /** Over any run every record of a begun consent names a grant on the terms that its digest was taken of. */
  lemma {:induction false} RunKeepsFiled(issuer: string, w: World, ops: seq<Op>)
    requires Linked(w.registry) && Filed(w.registry)
    ensures Filed(Run(issuer, w, ops).registry)
  {
    if ops != [] {
      RunKeepsFiled(issuer, w, ops[..|ops| - 1]);
      StepKeepsFiled(issuer, Run(issuer, w, ops[..|ops| - 1]), ops[|ops| - 1]);
    }
  }

  // ----------------------------------------------------- one proof, one grant

  /**
    A signed proof completes one consent with one decision only: wherever and
    whenever it is accepted twice, it is for the same grant, tenant, challenge
    and decision, on the same terms and for the same signer.
  */
  lemma ProofServesOneDecision(r: Registry, issuer: string, host: string, i: CompleteInput, now: int,
                               s: Registry, issuer': string, host': string, j: CompleteInput, later: int)
    requires Linked(r) && Linked(s) && i.proof == j.proof
    requires Look(r, issuer, host, i, now).Ok? && Look(s, issuer', host', j, later).Ok?
    ensures j.tenant == i.tenant && j.grantId == i.grantId && j.decision == i.decision && j.challenge == i.challenge
    ensures var t, u := r.grants[i.grantId].terms, s.grants[j.grantId].terms;
      t.site == u.site && t.subject == u.subject && t.client == u.client && t.scopes == u.scopes
    ensures Look(r, issuer, host, i, now).value.proof.thumbprint
      == Look(s, issuer', host', j, later).value.proof.thumbprint
  {
    var found := FindPending(r, i.tenant, i.grantId, i.key).value;
    var again := FindPending(s, j.tenant, j.grantId, j.key).value;
    AcceptedProofIsSpecific(i.proof, found.publicJwk, ExpectationOf(issuer, host, found, i.challenge, i.decision),
                            again.publicJwk, ExpectationOf(issuer', host', again, j.challenge, j.decision), now, later);
  }
}
