/**
  The platform tables that grants live in: sites, grants, idempotency records
  and the revocation event log. Each function is one committed transaction.
*/
module GrantRegistry {
  import opened Prelude

  datatype GrantStatus = Pending | Active | Suspended | Revoked

  datatype SiteStatus = SitePending | SiteActive | SiteSuspended | SiteRevoked | SiteDeleted

  datatype SiteRef = SiteRef(tenant: string, id: string)

  /** An Ed25519 public key and its identifier; the RFC 7638 thumbprint depends on the key alone. */
  datatype Jwk = Jwk(x: string, kid: string)

  datatype Site = Site(resource: string, status: SiteStatus, publicJwk: Jwk)

  /** The columns a consent fixes for good; only `status` of a grant ever changes. */
  datatype Terms = Terms(
    site: SiteRef, subject: string, client: string, scopes: seq<string>, challengeHash: Digest,
    consentExpiresAt: int, createdAt: int)

  datatype Grant = Grant(terms: Terms, status: GrantStatus)

  /** SHA-256 and HMAC are free constructors: injective, and never equal to anything else. */
  datatype Digest =
    | Sha(text: string)
    | Hmac(key: string, text: string)
    | RequestDigest(site: SiteRef, subject: string, client: string, scopes: seq<string>, resource: string,
                    consentVersion: string, idempotencyKey: string)
    | CompletionDigest(grantId: string, thumbprint: string)

  datatype Operation = GrantCreate | GrantComplete

  datatype RecordKey = RecordKey(tenant: string, operation: Operation, key: string)

  datatype Record = Record(digest: Digest, reference: string)

  datatype EventKind = GrantEvent | SiteEvent | KeyEvent

  datatype Event = Event(
    site: SiteRef, resource: string, sequence: int, kind: EventKind, grantId: Option<string>, reason: string)

  datatype Registry = Registry(
    sites: map<SiteRef, Site>,
    grants: map<string, Grant>,
    records: map<RecordKey, Record>,
    events: seq<Event>)

  predicate Live(g: Grant) {
    !g.status.Revoked?
  }

  /** Foreign keys: a grant's site exists. */
  ghost predicate Linked(r: Registry) {
    forall g :: g in r.grants ==> r.grants[g].terms.site in r.sites
  }

  // ------------------------------------------------------------- event log

  /** COALESCE(MAX(event_sequence), 0) over one site's events. */
  function MaxSequence(events: seq<Event>, site: SiteRef): int {
    if events == [] then 0
    else
      var last := events[|events| - 1];
      var earlier := MaxSequence(events[..|events| - 1], site);
      if last.site == site && last.sequence > earlier then last.sequence else earlier
  }

  function Append(r: Registry, site: SiteRef, kind: EventKind, grantId: Option<string>, reason: string): Registry
    requires site in r.sites
  {
    r.(events := r.events + [Event(site, r.sites[site].resource, MaxSequence(r.events, site) + 1, kind, grantId,
                                   reason)])
  }

  // ----------------------------------------------------------- revocations

  function Retire(r: Registry, id: string): Registry
    requires id in r.grants
  {
    r.(grants := r.grants[id := r.grants[id].(status := Revoked)])
  }

  /** oauth.revoke_refresh_grant: idempotent, one event for the call that revokes. */
  function RevokeRefreshGrant(r: Registry, id: string, reason: string): (s: Registry)
    requires Linked(r)
    ensures Linked(s)
  {
    if id !in r.grants || !Live(r.grants[id]) then r
    else Append(Retire(r, id), r.grants[id].terms.site, GrantEvent, Some(id), reason)
  }

  /** oauth.revoke_grant_with_event for a caller the tenant's rules permit. */
  function RevokeWithEvent(r: Registry, tenant: string, id: string): Registry
    requires Linked(r)
  {
    if id in r.grants && r.grants[id].terms.site.tenant == tenant
    then RevokeRefreshGrant(r, id, "platform_user_revoked")
    else r
  }

  /** PostgresGrantRepository.revoke: no event. */
  function RevokeQuietly(r: Registry, tenant: string, id: string): Registry {
    if id in r.grants && r.grants[id].terms.site.tenant == tenant && Live(r.grants[id]) then Retire(r, id) else r
  }

  predicate Connected(s: SiteStatus) {
    s.SitePending? || s.SiteActive? || s.SiteSuspended?
  }

  /** oauth.disconnect_site_with_event: the site, its live grants, one site event. */
  function DisconnectSite(r: Registry, site: SiteRef): Registry {
    if site !in r.sites || !Connected(r.sites[site].status) then r
    else
      var grants := map id | id in r.grants ::
        if r.grants[id].terms.site == site then r.grants[id].(status := Revoked) else r.grants[id];
      var sites := r.sites[site := r.sites[site].(status := SiteRevoked)];
      Append(r.(grants := grants, sites := sites), site, SiteEvent, None, "site_disconnected")
  }

  /** One key event for each listed site, in that order. */
  function AppendKeyEvents(r: Registry, order: seq<SiteRef>): (s: Registry)
    requires forall k :: k in order ==> k in r.sites
    ensures s == r.(events := s.events)
  {
    if order == [] then r
    else Append(AppendKeyEvents(r, order[..|order| - 1]), order[|order| - 1], KeyEvent, None, "key_revoked")
  }

  predicate ListsActive(r: Registry, order: seq<SiteRef>) {
    && (forall k :: k in r.sites ==> (r.sites[k].status.SiteActive? <==> k in order))
    && (forall i :: 0 <= i < |order| ==> order[i] in r.sites)
    && (forall i, j :: 0 <= i < j < |order| ==> order[i] != order[j])
  }

  /** oauth.revoke_signing_key for a key not yet revoked: every active site is told, in the order of the scan. */
  function RevokeSigningKey(r: Registry, order: seq<SiteRef>): Registry {
    if ListsActive(r, order) then AppendKeyEvents(r, order) else r
  }

  // ------------------------------------------------------------ repository

  /** The unique index on live consents. */
  predicate Consented(r: Registry, t: Terms) {
    exists id :: id in r.grants && Live(r.grants[id]) && r.grants[id].terms.site == t.site
              && r.grants[id].terms.subject == t.subject && r.grants[id].terms.client == t.client
  }

  datatype Created = Created(id: string, createdAt: int, expiresAt: int)

  function CreatePending(r: Registry, id: string, t: Terms, resource: string, key: string, digest: Digest)
    : (Registry, Result<Created>)
  {
    var k := RecordKey(t.site.tenant, GrantCreate, key);
    if k in r.records && r.records[k].reference in r.grants then
      var prior := r.records[k];
      if prior.digest != digest then (r, Err("idempotency_conflict"))
      else
        var terms := r.grants[prior.reference].terms;
        (r, Ok(Created(prior.reference, terms.createdAt, terms.consentExpiresAt)))
    else if t.site !in r.sites || r.sites[t.site].resource != resource || !r.sites[t.site].status.SiteActive? then
      (r, Err("active_site_not_found"))
    else if id in r.grants || k in r.records || Consented(r, t) then
      (r, Err("unique_violation"))
    else
      (r.(grants := r.grants[id := Grant(t, Pending)], records := r.records[k := Record(digest, id)]),
       Ok(Created(id, t.createdAt, t.consentExpiresAt)))
  }

  /** What findPending hands to the service: the grant's terms and its site's resource and key. */
  datatype Found = Found(id: string, terms: Terms, resource: string, publicJwk: Jwk, completionReplay: bool)

  function CompletionReplay(r: Registry, tenant: string, id: string, key: string): bool {
    var k := RecordKey(tenant, GrantComplete, key);
    k in r.records && r.records[k].reference == id
  }

  function FindPending(r: Registry, tenant: string, id: string, key: string): Option<Found>
    requires Linked(r)
  {
    if id !in r.grants || r.grants[id].terms.site.tenant != tenant then None
    else
      var g := r.grants[id];
      var replay := CompletionReplay(r, tenant, id, key);
      if (g.status.Pending? || replay) && r.sites[g.terms.site].status.SiteActive?
      then Some(Found(id, g.terms, r.sites[g.terms.site].resource, r.sites[g.terms.site].publicJwk, replay))
      else None
  }

  /** activate and deny: the same guarded transaction towards two statuses. */
  function Settle(r: Registry, tenant: string, id: string, key: string, thumbprint: string, status: GrantStatus,
                  now: int)
    : (Registry, Result<()>)
  {
    var k := RecordKey(tenant, GrantComplete, key);
    var digest := CompletionDigest(id, thumbprint);
    if k in r.records then
      (r, if r.records[k] == Record(digest, id) then Ok(()) else Err("idempotency_conflict"))
    else if id in r.grants && r.grants[id].terms.site.tenant == tenant && r.grants[id].status.Pending?
            && r.grants[id].terms.consentExpiresAt > now then
      (r.(grants := r.grants[id := r.grants[id].(status := status)], records := r.records[k := Record(digest, id)]),
       Ok(()))
    else
      (r, Err("grant_completion_replay"))
  }

  /** The unique index on live sites, over all tenants. */
  predicate ResourceTaken(sites: map<SiteRef, Site>, resource: string) {
    exists s :: s in sites && Connected(sites[s].status) && sites[s].resource == resource
  }

  // ------------------------------------------------------- claims resolver

  datatype Binding = Binding(grantId: Option<string>, client: Option<string>, resource: Option<string>)

  ghost predicate Resolves(r: Registry, subject: string, b: Binding, id: string)
    requires Linked(r)
  {
    && id in r.grants
    && r.grants[id].terms.subject == subject
    && r.grants[id].status.Active?
    && r.sites[r.grants[id].terms.site].status.SiteActive?
    && (b.grantId.Some? ==> id == b.grantId.value)
    && (b.client.Some? ==> r.grants[id].terms.client == b.client.value)
    && (b.resource.Some? ==> r.sites[r.grants[id].terms.site].resource == b.resource.value)
  }

  /** The grant whose claims an access token may carry: the only one that fits the binding. */
  ghost function ResolveClaims(r: Registry, subject: string, b: Binding): Option<string>
    requires Linked(r)
  {
    var fitting := set id | id in r.grants && Resolves(r, subject, b, id);
    if |fitting| == 1 then
      var id :| id in fitting;
      Some(id)
    else None
  }

  // --------------------------------------------------------- registry steps

  datatype Op =
    | Create(id: string, terms: Terms, resource: string, key: string, digest: Digest)
    | Complete(tenant: string, id: string, key: string, thumbprint: string, approve: bool, now: int)
    | RevokeRefresh(id: string, reason: string)
    | RevokeByUser(tenant: string, id: string)
    | RevokeByRepository(tenant: string, id: string)
    | Disconnect(site: SiteRef)
    | RevokeKey(order: seq<SiteRef>)
    | Connect(site: SiteRef, resource: string, publicJwk: Jwk)

  function Next(r: Registry, op: Op): Registry
    requires Linked(r)
  {
    match op
    case Create(id, terms, resource, key, digest) => CreatePending(r, id, terms, resource, key, digest).0
    case Complete(tenant, id, key, thumbprint, approve, now) =>
      Settle(r, tenant, id, key, thumbprint, if approve then Active else Revoked, now).0
    case RevokeRefresh(id, reason) => RevokeRefreshGrant(r, id, reason)
    case RevokeByUser(tenant, id) => RevokeWithEvent(r, tenant, id)
    case RevokeByRepository(tenant, id) => RevokeQuietly(r, tenant, id)
    case Disconnect(site) => DisconnectSite(r, site)
    case RevokeKey(order) => RevokeSigningKey(r, order)
    case Connect(site, resource, publicJwk) =>
      if site in r.sites || ResourceTaken(r.sites, resource) then r
      else r.(sites := r.sites[site := Site(resource, SiteActive, publicJwk)])
  }

  /** Status order of a consent: a decision is final, and revocation is the last state. */
  predicate Forward(before: GrantStatus, after: GrantStatus) {
    || before == after
    || (before.Pending? && after.Active?)
    || (!before.Revoked? && after.Revoked?)
  }

  /** No row disappears, a consent's terms are never rewritten, and statuses only move forward. */
  ghost predicate Advances(r: Registry, s: Registry) {
    && Linked(s)
    && (forall id :: id in r.grants ==>
          && id in s.grants
          && s.grants[id].terms == r.grants[id].terms
          && Forward(r.grants[id].status, s.grants[id].status))
    && (forall k :: k in r.sites ==>
          k in s.sites && s.sites[k].resource == r.sites[k].resource && s.sites[k].publicJwk == r.sites[k].publicJwk)
    && (forall k :: k in r.records ==> k in s.records && s.records[k] == r.records[k])
  }

  lemma RevokingAdvances(r: Registry, op: Op)
    requires Linked(r) && (op.RevokeRefresh? || op.RevokeByUser? || op.RevokeByRepository?)
    ensures Advances(r, Next(r, op))
  {
    if op.id in r.grants && Live(r.grants[op.id]) {
      assert Advances(r, Retire(r, op.id));
    }
  }

  lemma DisconnectAdvances(r: Registry, site: SiteRef)
    requires Linked(r)
    ensures Advances(r, DisconnectSite(r, site))
  {
  }

  lemma CreateAdvances(r: Registry, op: Op)
    requires Linked(r) && op.Create?
    ensures Advances(r, Next(r, op))
  {
  }

  lemma SettleAdvances(r: Registry, op: Op)
    requires Linked(r) && op.Complete?
    ensures Advances(r, Next(r, op))
  {
  }

  lemma NextAdvances(r: Registry, op: Op)
    requires Linked(r)
    ensures Advances(r, Next(r, op))
  {
    match op
    case Create(_, _, _, _, _) => CreateAdvances(r, op);
    case Complete(_, _, _, _, _, _) => SettleAdvances(r, op);
    case Disconnect(site) => DisconnectAdvances(r, site);
    case RevokeKey(_) =>
    case Connect(_, _, _) =>
    case _ => RevokingAdvances(r, op);
  }

  // ------------------------------------------------------------- event facts

  /** How many events name a grant. */
  function EventsOf(events: seq<Event>, id: string): nat {
    if events == [] then 0
    else EventsOf(events[..|events| - 1], id) + (if events[|events| - 1].grantId == Some(id) then 1 else 0)
  }

  function EventsAt(events: seq<Event>, site: SiteRef): nat {
    if events == [] then 0
    else EventsAt(events[..|events| - 1], site) + (if events[|events| - 1].site == site then 1 else 0)
  }

  /** Every event is numbered one more than the events its site had before it: 1, 2, 3, ... without gap or repeat. */
  ghost predicate Numbered(events: seq<Event>) {
    forall i :: 0 <= i < |events| ==> events[i].sequence == EventsAt(events[..i], events[i].site) + 1
  }

  lemma {:induction false} MaxIsCount(events: seq<Event>, site: SiteRef)
    requires Numbered(events)
    ensures MaxSequence(events, site) == EventsAt(events, site)
  {
    if events != [] {
      var init := events[..|events| - 1];
      forall i | 0 <= i < |init| ensures init[i].sequence == EventsAt(init[..i], init[i].site) + 1 {
        assert init[..i] == events[..i];
      }
      MaxIsCount(init, site);
    }
  }

  /** A live grant has no event yet, a revoked one at most one, and events name only existing grants. */
  ghost predicate EventsSound(r: Registry) {
    && Numbered(r.events)
    && forall id :: EventsOf(r.events, id) <= (if id in r.grants && !Live(r.grants[id]) then 1 else 0)
  }

  lemma AppendKeepsNumbering(r: Registry, site: SiteRef, kind: EventKind, grantId: Option<string>, reason: string)
    requires site in r.sites && Numbered(r.events)
    ensures Numbered(Append(r, site, kind, grantId, reason).events)
    ensures forall id :: EventsOf(Append(r, site, kind, grantId, reason).events, id)
                      == EventsOf(r.events, id) + (if grantId == Some(id) then 1 else 0)
  {
    MaxIsCount(r.events, site);
    var after := Append(r, site, kind, grantId, reason).events;
    assert after[..|after| - 1] == r.events;
    forall i | 0 <= i < |after| ensures after[i].sequence == EventsAt(after[..i], after[i].site) + 1 {
      if i < |r.events| {
        assert after[..i] == r.events[..i];
      }
    }
  }

  lemma RevokeKeepsEvents(r: Registry, id: string, reason: string)
    requires Linked(r) && EventsSound(r)
    ensures EventsSound(RevokeRefreshGrant(r, id, reason))
    ensures forall g :: g in r.grants && !Live(r.grants[g]) ==>
      EventsOf(RevokeRefreshGrant(r, id, reason).events, g) == EventsOf(r.events, g)
  {
    if id in r.grants && Live(r.grants[id]) {
      AppendKeepsNumbering(Retire(r, id), r.grants[id].terms.site, GrantEvent, Some(id), reason);
      assert EventsOf(r.events, id) == 0;
    }
  }

  lemma DisconnectKeepsEvents(r: Registry, site: SiteRef)
    requires Linked(r) && EventsSound(r)
    ensures EventsSound(DisconnectSite(r, site))
    ensures forall g :: EventsOf(DisconnectSite(r, site).events, g) == EventsOf(r.events, g)
  {
    if site in r.sites && Connected(r.sites[site].status) {
      var after := DisconnectSite(r, site);
      AppendKeepsNumbering(r.(grants := after.grants, sites := after.sites), site, SiteEvent, None,
                           "site_disconnected");
    }
  }

  /** A revoked key is told once to each listed site, under that site's next number. */
  lemma {:induction false} KeyKeepsEvents(r: Registry, order: seq<SiteRef>)
    requires Linked(r) && EventsSound(r) && forall k :: k in order ==> k in r.sites
    ensures EventsSound(AppendKeyEvents(r, order))
    ensures forall g :: EventsOf(AppendKeyEvents(r, order).events, g) == EventsOf(r.events, g)
  {
    if order != [] {
      var n := |order| - 1;
      KeyKeepsEvents(r, order[..n]);
      AppendKeepsNumbering(AppendKeyEvents(r, order[..n]), order[n], KeyEvent, None, "key_revoked");
    }
  }

  lemma {:induction false} KeyReachesListed(r: Registry, order: seq<SiteRef>, site: SiteRef)
    requires (forall k :: k in order ==> k in r.sites) && forall i, j :: 0 <= i < j < |order| ==> order[i] != order[j]
    ensures EventsAt(AppendKeyEvents(r, order).events, site)
      == EventsAt(r.events, site) + (if site in order then 1 else 0)
  {
    if order != [] {
      var n := |order| - 1;
      KeyReachesListed(r, order[..n], site);
      var after := AppendKeyEvents(r, order).events;
      assert after[..|after| - 1] == AppendKeyEvents(r, order[..n]).events;
      assert order == order[..n] + [order[n]];
    }
  }

  /** Revoking a signing key tells every active site exactly once and no other. */
  lemma KeyReachesEverySite(r: Registry, order: seq<SiteRef>, site: SiteRef)
    requires ListsActive(r, order) && site in r.sites
    ensures EventsAt(RevokeSigningKey(r, order).events, site)
         == EventsAt(r.events, site) + (if r.sites[site].status.SiteActive? then 1 else 0)
  {
    KeyReachesListed(r, order, site);
  }

  /** Quiet steps write no event and revive no grant. */
  lemma QuietKeepsEvents(r: Registry, s: Registry)
    requires Linked(r) && EventsSound(r) && Advances(r, s) && s.events == r.events
    ensures EventsSound(s)
  {
  }

  lemma NextKeepsEvents(r: Registry, op: Op)
    requires Linked(r) && EventsSound(r)
    ensures EventsSound(Next(r, op))
    ensures forall id :: id in r.grants && !Live(r.grants[id]) ==>
      EventsOf(Next(r, op).events, id) == EventsOf(r.events, id)
  {
    match op
    case RevokeRefresh(id, reason) => RevokeKeepsEvents(r, id, reason);
    case RevokeByUser(_, id) => RevokeKeepsEvents(r, id, "platform_user_revoked");
    case Disconnect(site) => DisconnectKeepsEvents(r, site);
    case RevokeKey(order) =>
      if ListsActive(r, order) {
        KeyKeepsEvents(r, order);
      }
    case _ =>
      NextAdvances(r, op);
      QuietKeepsEvents(r, Next(r, op));
  }
}
