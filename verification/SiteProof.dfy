/** The signed proof a site returns, and the checks that accept it for one exact expectation. */
module SiteProof {
  import opened Prelude
  import opened GrantRegistry

  const SITE_PROOF_TTL_SECONDS := 60
  const CLOCK_LEEWAY_SECONDS := 5
  const MAX_SITE_PROOF_BYTES := 16 * 1024

  datatype Kind = PairingKind | ConsentKind

  datatype Decision = Approved | Denied

  datatype Claims = Claims(
    kind: Kind, platformIssuer: string, iss: string, tenant: string, resource: string, challenge: string,
    iat: int, exp: int,
    pairingAttemptId: Option<string>, siteId: Option<string>,
    platformSigningKeySha256: Option<string>, platformSigningKid: Option<string>,
    grantId: Option<string>, clientId: Option<string>, subjectId: Option<string>,
    aud: Option<string>, decision: Option<Decision>, scope: Option<seq<string>>)

  /** A compact signature: its protected header, the key that verifies it, and its payload if that fits the schema. */
  datatype Jws = Jws(
    bytes: nat, headerNames: set<string>, alg: string, typ: string, kid: string, signer: string, claims: Option<Claims>)

  datatype Expected = Expected(
    kind: Kind, platformIssuer: string, tenant: string, resource: string, host: string, challenge: string,
    pairingAttemptId: Option<string>, siteId: Option<string>,
    platformSigningKeySha256: Option<string>, platformSigningKid: Option<string>,
    grantId: Option<string>, clientId: Option<string>, subjectId: Option<string>,
    scopes: Option<seq<string>>, decision: Option<Decision>)

  datatype Verified = Verified(claims: Claims, publicJwk: Jwk, thumbprint: string)

  function Thumbprint(jwk: Jwk): string {
    jwk.x
  }

  predicate HeaderValid(jws: Jws, jwk: Jwk) {
    && jws.headerNames == {"alg", "kid", "typ"}
    && jws.alg == "EdDSA"
    && jws.typ == "wepuu-site-proof+jwt"
    && jws.kid == jwk.kid
  }

  predicate TimesValid(c: Claims, nowSeconds: int) {
    && c.exp > nowSeconds
    && c.iat <= nowSeconds + CLOCK_LEEWAY_SECONDS
    && c.exp - c.iat <= SITE_PROOF_TTL_SECONDS
  }

  predicate ClaimsMatch(c: Claims, e: Expected) {
    && c.kind == e.kind && c.platformIssuer == e.platformIssuer && c.iss == e.host
    && c.tenant == e.tenant && c.resource == e.resource && c.challenge == e.challenge
    && c.pairingAttemptId == e.pairingAttemptId
    && c.siteId == e.siteId
    && c.platformSigningKeySha256 == e.platformSigningKeySha256
    && c.platformSigningKid == e.platformSigningKid
    && c.grantId == e.grantId
    && c.clientId == e.clientId
    && c.subjectId == e.subjectId
    && c.aud == (if e.kind.ConsentKind? then Some(e.resource) else None)
    && c.decision == e.decision
    && (e.scopes.Some? ==> (if c.scope.Some? then c.scope.value else []) == e.scopes.value)
  }

  function VerifySiteProof(jws: Jws, jwk: Jwk, e: Expected, now: int): Result<Verified> {
    if jws.bytes > MAX_SITE_PROOF_BYTES then Err("proof.signature_invalid")
    else if !HeaderValid(jws, jwk) then Err("proof.header_invalid")
    else if jws.signer != jwk.x then Err("proof.signature_invalid")
    else if jws.claims.None? || !TimesValid(jws.claims.value, now / SECOND) || !ClaimsMatch(jws.claims.value, e) then
      Err("proof.claims_invalid")
    else Ok(Verified(jws.claims.value, jwk, Thumbprint(jwk)))
  }

  /**
    A proof is accepted exactly when it is no longer than 16 KiB, its header names
    only the algorithm, the type and the key, all three are the expected ones, the
    key's owner signed it, it is current, and every claim is the expected one. What
    is returned are its claims, the key and the key's thumbprint.
  */
  lemma ProofMeaning(jws: Jws, jwk: Jwk, e: Expected, now: int)
    ensures var proof := VerifySiteProof(jws, jwk, e, now);
      && (proof.Ok? <==>
            && jws.bytes <= 16_384
            && jws.headerNames == {"kid", "alg", "typ"} && jws.alg == "EdDSA" && jws.kid == jwk.kid
            && jws.typ == "wepuu-site-proof+jwt"
            && jws.signer == jwk.x
            && jws.claims.Some?
            && var c, seconds := jws.claims.value, now / 1_000_000;
              && seconds < c.exp && c.iat <= seconds + 5 && c.exp <= c.iat + 60
              && c.kind == e.kind && c.platformIssuer == e.platformIssuer && c.iss == e.host && c.tenant == e.tenant
              && c.resource == e.resource && c.challenge == e.challenge
              && c.pairingAttemptId == e.pairingAttemptId && c.siteId == e.siteId
              && c.platformSigningKeySha256 == e.platformSigningKeySha256
              && c.platformSigningKid == e.platformSigningKid
              && c.grantId == e.grantId && c.clientId == e.clientId && c.subjectId == e.subjectId
              && c.decision == e.decision
              && (e.kind == ConsentKind ==> c.aud == Some(e.resource)) && (e.kind == PairingKind ==> c.aud == None)
              && (e.scopes.Some? ==> c.scope == e.scopes || (c.scope == None && e.scopes.value == [])))
      && (proof.Ok? ==> proof.value == Verified(jws.claims.value, jwk, jwk.x))
  {
  }

  /** An accepted proof is signed by the expected key and dies within 65 seconds. */
  lemma AcceptedProofIsShortLived(jws: Jws, jwk: Jwk, e: Expected, now: int)
    requires VerifySiteProof(jws, jwk, e, now).Ok?
    ensures jws.signer == jwk.x && jws.claims.Some?
    ensures now / SECOND < jws.claims.value.exp <= now / SECOND + CLOCK_LEEWAY_SECONDS + SITE_PROOF_TTL_SECONDS
  {
  }

  /** One proof serves one expectation only: two exact expectations it satisfies, under whatever keys, are the same. */
  lemma AcceptedProofIsSpecific(jws: Jws, jwk: Jwk, e: Expected, jwk': Jwk, f: Expected, now: int, later: int)
    requires VerifySiteProof(jws, jwk, e, now).Ok? && VerifySiteProof(jws, jwk', f, later).Ok?
    requires e.scopes.Some? && f.scopes.Some?
    ensures e == f && jwk.x == jwk'.x
  {
  }
}
