/**
  Pairing and consent over the same site table. A completed pairing puts the site
  and its key there, and the proofs that approve grants are checked under that key.
*/
module ControlPlane {
  import opened Prelude
  import opened GrantRegistry
  import Pairing
  import Consent

  datatype Plane = Plane(pairing: Pairing.World, consent: Consent.World)

  /** Every step of either service; sites come only from pairing, and go for both at once. */
  datatype Op =
    | Pair(step: Pairing.Op)
    | Serve(move: Consent.Op)
    | Release(site: SiteRef)

  /** A step of the consent side that leaves the site table alone. */
  predicate KeepsSites(op: Consent.Op) {
    !(op.Platform? && (op.op.Connect? || op.op.Disconnect?))
  }

  ghost predicate OneTable(w: Plane) {
    Linked(w.consent.registry) && w.pairing.t.sites == w.consent.registry.sites
  }

  function WithSites(c: Consent.World, sites: map<SiteRef, Site>): Consent.World {
    c.(registry := c.registry.(sites := sites))
  }

  ghost function Next(issuer: string, w: Plane, op: Op): Plane
    requires OneTable(w)
  {
    match op
    case Pair(step) =>
      if step.DropSite? then w
      else
        var p := Pairing.Next(issuer, w.pairing, step);
        Plane(p, WithSites(w.consent, p.t.sites))
    case Serve(step) => if KeepsSites(step) then w.(consent := Consent.Next(issuer, w.consent, step)) else w
    case Release(site) =>
      Plane(Pairing.Next(issuer, w.pairing, Pairing.DropSite(site)),
            Consent.Next(issuer, w.consent, Consent.Platform(GrantRegistry.Disconnect(site))))
  }

  // ------------------------------------------ each step is a step of each side

  /** To the consent side, a pairing step is nothing or the connection of one new site. */
  lemma PairConnects(issuer: string, w: Plane, step: Pairing.Op)
    requires OneTable(w) && !step.DropSite?
    ensures var c := WithSites(w.consent, Pairing.Next(issuer, w.pairing, step).t.sites);
      || c == w.consent
      || exists site, resource, jwk ::
           c == Consent.Next(issuer, w.consent, Consent.Platform(Connect(site, resource, jwk)))
  {
    var t := w.pairing.t;
    if step.Commit? && step.call in w.pairing.calls && w.pairing.calls[step.call].phase.Proved? {
      var c := w.pairing.calls[step.call];
      var after := Pairing.CompleteAttempt(t, c.input.attempt, c.resource, c.phase.acceptance.proof, c.input.site,
                                           c.input.key, step.now).0;
      if after.sites != t.sites {
        CommitConnects(issuer, w, c.input.site, c.resource, c.phase.acceptance.proof.publicJwk);
      }
    }
  }

  lemma CommitConnects(issuer: string, w: Plane, site: SiteRef, resource: string, jwk: Jwk)
    requires OneTable(w) && site !in w.pairing.t.sites && !ResourceTaken(w.pairing.t.sites, resource)
    ensures WithSites(w.consent, w.pairing.t.sites[site := Site(resource, SiteActive, jwk)])
         == Consent.Next(issuer, w.consent, Consent.Platform(Connect(site, resource, jwk)))
  {
  }

  lemma ServeKeepsSites(issuer: string, c: Consent.World, step: Consent.Op)
    requires Linked(c.registry) && KeepsSites(step)
    ensures Consent.Next(issuer, c, step).registry.sites == c.registry.sites
  {
  }

  lemma DisconnectAlike(issuer: string, w: Plane, site: SiteRef)
    requires OneTable(w)
    ensures var v := Next(issuer, w, Release(site));
      v.pairing.t.sites == v.consent.registry.sites
  {
  }

  lemma StepKeepsTable(issuer: string, w: Plane, op: Op)
    requires OneTable(w)
    ensures OneTable(Next(issuer, w, op))
  {
    match op
    case Pair(step) =>
      if !step.DropSite? {
        PairConnects(issuer, w, step);
        var c := WithSites(w.consent, Pairing.Next(issuer, w.pairing, step).t.sites);
        if c != w.consent {
          var site, resource, jwk :| c == Consent.Next(issuer, w.consent,
                                                       Consent.Platform(Connect(site, resource, jwk)));
          Consent.StepAdvances(issuer, w.consent, Consent.Platform(Connect(site, resource, jwk)));
        }
      }
    case Serve(step) =>
      if KeepsSites(step) {
        Consent.StepAdvances(issuer, w.consent, step);
        ServeKeepsSites(issuer, w.consent, step);
      }
    case Release(site) =>
      Consent.StepAdvances(issuer, w.consent, Consent.Platform(GrantRegistry.Disconnect(site)));
      DisconnectAlike(issuer, w, site);
  }

  // ------------------------------------------------------------------ runs

  const EMPTY := Plane(Pairing.Initial(Pairing.Tables(map[], map[], map[])),
                       Consent.World(Registry(map[], map[], map[], []), map[], []))

  ghost function Run(issuer: string, ops: seq<Op>): (w: Plane)
    ensures OneTable(w)
  {
    if ops == [] then EMPTY
    else
      var w := Run(issuer, ops[..|ops| - 1]);
      StepKeepsTable(issuer, w, ops[|ops| - 1]);
      Next(issuer, w, ops[|ops| - 1])
  }

  ghost predicate Sound(issuer: string, w: Plane)
    requires OneTable(w)
  {
    && Pairing.Inv(w.pairing, {}) && Pairing.ProofsKept(issuer, w.pairing)
    && Consent.ApprovalsKept(issuer, w.consent)
  }

  lemma PairingStaysSound(issuer: string, w: Pairing.World, step: Pairing.Op)
    requires Pairing.Inv(w, {}) && Pairing.ProofsKept(issuer, w)
    ensures Pairing.Inv(Pairing.Next(issuer, w, step), {}) && Pairing.ProofsKept(issuer, Pairing.Next(issuer, w, step))
  {
    Pairing.StepKeepsTables(issuer, w, step, {});
    Pairing.StepKeepsCalls(issuer, w, step);
    Pairing.StepKeepsOwners(issuer, w, step);
    Pairing.StepKeepsRequests(issuer, w, step);
    Pairing.StepKeepsProofs(issuer, w, step);
  }

  lemma StepStaysSound(issuer: string, w: Plane, op: Op)
    requires OneTable(w) && Sound(issuer, w)
    ensures OneTable(Next(issuer, w, op)) && Sound(issuer, Next(issuer, w, op))
  {
    StepKeepsTable(issuer, w, op);
    match op
    case Pair(step) =>
      if !step.DropSite? {
        PairingStaysSound(issuer, w.pairing, step);
        PairConnects(issuer, w, step);
        var c := WithSites(w.consent, Pairing.Next(issuer, w.pairing, step).t.sites);
        if c != w.consent {
          var site, resource, jwk :| c == Consent.Next(issuer, w.consent,
                                                       Consent.Platform(Connect(site, resource, jwk)));
          Consent.StepKeepsApprovals(issuer, w.consent, Consent.Platform(Connect(site, resource, jwk)));
        }
      }
    case Serve(step) =>
      if KeepsSites(step) {
        Consent.StepKeepsApprovals(issuer, w.consent, step);
      }
    case Release(site) =>
      PairingStaysSound(issuer, w.pairing, Pairing.DropSite(site));
      Consent.StepKeepsApprovals(issuer, w.consent, Consent.Platform(GrantRegistry.Disconnect(site)));
  }

  lemma {:induction false} RunStaysSound(issuer: string, ops: seq<Op>)
    ensures Sound(issuer, Run(issuer, ops))
  {
    if ops != [] {
      RunStaysSound(issuer, ops[..|ops| - 1]);
      StepStaysSound(issuer, Run(issuer, ops[..|ops| - 1]), ops[|ops| - 1]);
    }
  }

  /** A pairing proof accepted for this site and resource, which installed the key. */
  ghost predicate Installed(issuer: string, w: Plane, site: SiteRef, resource: string, jwk: Jwk,
                            x: Pairing.Acceptance)
  {
    && x in w.pairing.proofs && Pairing.Fits(issuer, x)
    && x.input.site == site && x.resource == resource && x.proof.publicJwk == jwk
    && Pairing.ActiveFor(w.pairing.t, x.input.attempt, site)
  }

  lemma SiteWasPaired(issuer: string, w: Plane, site: SiteRef) returns (x: Pairing.Acceptance)
    requires OneTable(w) && Sound(issuer, w) && site in w.consent.registry.sites
    ensures var s := w.consent.registry.sites[site]; Installed(issuer, w, site, s.resource, s.publicJwk, x)
  {
    var a :| Pairing.ActiveFor(w.pairing.t, a, site);
    x :| Pairing.Paired(w.pairing, a, x);
  }

  /**
    Every active grant was approved by a proof signed under the very key that an
    accepted pairing proof installed for the grant's site and resource, whatever
    either service did meanwhile.
  */
  lemma ActiveGrantTracesToPairing(issuer: string, ops: seq<Op>, id: string)
    returns (a: Consent.Acceptance, x: Pairing.Acceptance)
    requires id in Run(issuer, ops).consent.registry.grants
    requires Run(issuer, ops).consent.registry.grants[id].status.Active?
    ensures var w := Run(issuer, ops);
      var site := w.consent.registry.grants[id].terms.site;
      && Consent.Approval(issuer, w.consent, id, a)
      && Installed(issuer, w, site, w.consent.registry.sites[site].resource, a.proof.publicJwk, x)
  {
    RunStaysSound(issuer, ops);
    var w := Run(issuer, ops);
    a :| Consent.Approval(issuer, w.consent, id, a);
    x := SiteWasPaired(issuer, w, w.consent.registry.grants[id].terms.site);
  }
}
