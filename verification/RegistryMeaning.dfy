/**
  What each transaction on the platform tables does to the rows, column by
  column: which grants, sites, records and events are there afterwards.
*/
module RegistryMeaning {
  import opened Prelude
  import opened GrantRegistry

  // ------------------------------------------------------------ revocations

  /** The sequence number lies above every earlier one of the site, and next to the highest. */
  ghost predicate NextNumber(events: seq<Event>, site: SiteRef, n: int) {
    && n >= 1
    && (forall i :: 0 <= i < |events| && events[i].site == site ==> events[i].sequence < n)
    && (n == 1 || exists i :: 0 <= i < |events| && events[i].site == site && events[i].sequence == n - 1)
  }

  lemma {:induction false} MaxIsNext(events: seq<Event>, site: SiteRef)
    ensures NextNumber(events, site, MaxSequence(events, site) + 1)
  {
    if events != [] {
      var k := |events| - 1;
      MaxIsNext(events[..k], site);
      var n := MaxSequence(events, site);
      if n != 0 {
        if events[k].site == site && events[k].sequence == n {
        } else {
          var i :| 0 <= i < k && events[..k][i].site == site && events[..k][i].sequence == n;
          assert events[i] == events[..k][i];
        }
      }
      forall i | 0 <= i < |events| && events[i].site == site ensures events[i].sequence < n + 1 {
        if i < k {
          assert events[i] == events[..k][i];
        }
      }
    }
  }

  /** The step logs exactly one event, for that site, under its resource and its next number. */
  ghost predicate Logs(r: Registry, s: Registry, site: SiteRef, kind: EventKind, grantId: Option<string>,
                       reason: string)
    requires site in r.sites
  {
    && |s.events| == |r.events| + 1 && s.events[..|r.events|] == r.events
    && var e := s.events[|r.events|];
      && e.site == site && e.resource == r.sites[site].resource && e.kind == kind && e.grantId == grantId
      && e.reason == reason && NextNumber(r.events, site, e.sequence)
  }

  lemma AppendLogs(r: Registry, site: SiteRef, kind: EventKind, grantId: Option<string>, reason: string)
    requires site in r.sites
    ensures Logs(r, Append(r, site, kind, grantId, reason), site, kind, grantId, reason)
  {
    MaxIsNext(r.events, site);
  }

  /**
    A revocation of a grant that is not revoked makes it so, keeps its terms and
    every other row, and logs one event for its site; any other changes nothing.
  */
  lemma RevokeMeaning(r: Registry, id: string, reason: string)
    requires Linked(r)
    ensures var s := RevokeRefreshGrant(r, id, reason);
      if id in r.grants && r.grants[id].status != Revoked then
        && s.grants == r.grants[id := Grant(r.grants[id].terms, Revoked)]
        && s.sites == r.sites && s.records == r.records
        && Logs(r, s, r.grants[id].terms.site, GrantEvent, Some(id), reason)
      else s == r
  {
    if id in r.grants && r.grants[id].status != Revoked {
      AppendLogs(Retire(r, id), r.grants[id].terms.site, GrantEvent, Some(id), reason);
    }
  }

  /** A user's revocation is one in the user's own tenant; the repository's logs no event. */
  lemma TenantRevokeMeaning(r: Registry, tenant: string, id: string)
    requires Linked(r)
    ensures var s, q := RevokeWithEvent(r, tenant, id), RevokeQuietly(r, tenant, id);
      if id in r.grants && r.grants[id].terms.site.tenant == tenant && r.grants[id].status != Revoked then
        && s.grants == r.grants[id := Grant(r.grants[id].terms, Revoked)]
        && s.sites == r.sites && s.records == r.records
        && Logs(r, s, r.grants[id].terms.site, GrantEvent, Some(id), "platform_user_revoked")
        && q == r.(grants := s.grants)
      else s == r && q == r
  {
    RevokeMeaning(r, id, "platform_user_revoked");
  }

  /**
    A disconnection revokes the site and every grant on it, and logs one site
    event; the terms of all grants, the grants on other sites and the other sites
    stay. A site that is neither pending, active nor suspended is left alone.
  */
  lemma DisconnectMeaning(r: Registry, site: SiteRef)
    ensures var s := DisconnectSite(r, site);
      if site in r.sites && r.sites[site].status in {SitePending, SiteActive, SiteSuspended} then
        && s.sites == r.sites[site := r.sites[site].(status := SiteRevoked)]
        && s.records == r.records
        && s.grants.Keys == r.grants.Keys
        && (forall id :: id in r.grants ==>
              s.grants[id] == if r.grants[id].terms.site == site then Grant(r.grants[id].terms, Revoked)
                              else r.grants[id])
        && Logs(r, s, site, SiteEvent, None, "site_disconnected")
      else s == r
  {
    if site in r.sites && r.sites[site].status in {SitePending, SiteActive, SiteSuspended} {
      var s := DisconnectSite(r, site);
      AppendLogs(r.(grants := s.grants, sites := s.sites), site, SiteEvent, None, "site_disconnected");
    }
  }

  /** The event at that place tells the site of a revoked key, under the site's next number. */
  ghost predicate TellsKey(r: Registry, events: seq<Event>, site: SiteRef, at: nat)
    requires site in r.sites
  {
    && at < |events|
    && events[at].site == site && events[at].resource == r.sites[site].resource && events[at].kind == KeyEvent
    && events[at].grantId == None && events[at].reason == "key_revoked"
    && NextNumber(events[..at], site, events[at].sequence)
  }

  lemma TellsLater(r: Registry, events: seq<Event>, more: seq<Event>, site: SiteRef, at: nat)
    requires site in r.sites && TellsKey(r, events, site, at) && events <= more
    ensures TellsKey(r, more, site, at)
  {
    assert more[..at] == events[..at];
  }

  lemma AppendTells(r: Registry, before: Registry, site: SiteRef)
    requires site in r.sites && before.sites == r.sites
    ensures var after := Append(before, site, KeyEvent, None, "key_revoked");
      before.events <= after.events && TellsKey(r, after.events, site, |before.events|)
  {
    AppendLogs(before, site, KeyEvent, None, "key_revoked");
    assert Append(before, site, KeyEvent, None, "key_revoked").events[..|before.events|] == before.events;
  }

  /** After the first n sites of the list: one event more for each, in that order. */
  ghost predicate TellsAll(r: Registry, events: seq<Event>, order: seq<SiteRef>)
    requires forall k :: k in order ==> k in r.sites
  {
    && |events| == |r.events| + |order| && r.events <= events
    && forall i :: 0 <= i < |order| ==> TellsKey(r, events, order[i], |r.events| + i)
  }

  lemma TellsOneMore(r: Registry, before: Registry, order: seq<SiteRef>, site: SiteRef)
    requires (forall k :: k in order + [site] ==> k in r.sites) && before.sites == r.sites
    requires (forall k :: k in order ==> k in r.sites) && TellsAll(r, before.events, order) && site in r.sites
    ensures TellsAll(r, Append(before, site, KeyEvent, None, "key_revoked").events, order + [site])
  {
    var after := Append(before, site, KeyEvent, None, "key_revoked").events;
    AppendTells(r, before, site);
    forall i | 0 <= i < |order| + 1 ensures TellsKey(r, after, (order + [site])[i], |r.events| + i) {
      if i < |order| {
        TellsLater(r, before.events, after, order[i], |r.events| + i);
      }
    }
  }

  /** A revoked signing key is told to each listed site in turn, and nothing else changes. */
  lemma {:induction false} KeyMeaning(r: Registry, order: seq<SiteRef>)
    requires forall k :: k in order ==> k in r.sites
    ensures AppendKeyEvents(r, order) == r.(events := AppendKeyEvents(r, order).events)
    ensures TellsAll(r, AppendKeyEvents(r, order).events, order)
  {
    if order != [] {
      var n := |order| - 1;
      KeyMeaning(r, order[..n]);
      TellsOneMore(r, AppendKeyEvents(r, order[..n]), order[..n], order[n]);
      assert order == order[..n] + [order[n]];
    }
  }

  /** For every list of the active sites, each once: the key's revocation tells exactly those, in that order. */
  lemma RevokeKeyMeaning(r: Registry, order: seq<SiteRef>)
    requires forall k :: k in order <==> k in r.sites && r.sites[k].status == SiteActive
    requires forall i, j :: 0 <= i < j < |order| ==> order[i] != order[j]
    ensures RevokeSigningKey(r, order) == r.(events := RevokeSigningKey(r, order).events)
    ensures TellsAll(r, RevokeSigningKey(r, order).events, order)
  {
    forall i | 0 <= i < |order| ensures order[i] in r.sites {
      assert order[i] in order;
    }
    KeyMeaning(r, order);
  }

  // ----------------------------------------------------------------- claims

  /** An active grant of the subject on an active site, which the token's binding fits. */
  ghost predicate Bears(r: Registry, subject: string, b: Binding, g: string)
    requires Linked(r)
  {
    && g in r.grants && r.grants[g].terms.subject == subject && r.grants[g].status == Active
    && r.sites[r.grants[g].terms.site].status == SiteActive
    && (b.grantId == None || b.grantId == Some(g))
    && (b.client == None || b.client == Some(r.grants[g].terms.client))
    && (b.resource == None || b.resource == Some(r.sites[r.grants[g].terms.site].resource))
  }

  lemma OnlyMember(s: set<string>, x: string)
    requires |s| == 1 && x in s
    ensures forall y :: y in s ==> y == x
  {
    assert |s - {x}| == 0;
  }

  /** A token's claims name a grant exactly when it is the only one that may bear it. */
  lemma ClaimsMeaning(r: Registry, subject: string, b: Binding, id: string)
    requires Linked(r)
    ensures ResolveClaims(r, subject, b) == Some(id) <==>
      Bears(r, subject, b, id) && forall g :: Bears(r, subject, b, g) ==> g == id
  {
    var fitting := set g | g in r.grants && Resolves(r, subject, b, g);
    forall g: string ensures Bears(r, subject, b, g) <==> g in fitting {}
    if Bears(r, subject, b, id) && forall g :: Bears(r, subject, b, g) ==> g == id {
      assert fitting == {id};
    }
    if |fitting| == 1 {
      var g :| g in fitting && ResolveClaims(r, subject, b) == Some(g);
      OnlyMember(fitting, g);
    }
  }

  // --------------------------------------------------------------- consents

  /**
    A new consent is stored, pending and under its key, exactly when the site is
    active with that resource, the identifier and the key are unused, and no
    consent of the same parties is still live. A used key answers with the first
    consent's identifier and times, or with a conflict if the request differs.
  */
  lemma CreateMeaning(r: Registry, id: string, t: Terms, resource: string, key: string, digest: Digest)
    ensures var k := RecordKey(t.site.tenant, GrantCreate, key);
      var (s, result) := CreatePending(r, id, t, resource, key, digest);
      if k in r.records && r.records[k].reference in r.grants then
        && s == r
        && var first := r.grants[r.records[k].reference].terms;
          result == if r.records[k].digest == digest
                    then Ok(Created(r.records[k].reference, first.createdAt, first.consentExpiresAt))
                    else Err("idempotency_conflict")
      else
        && (result.Ok? <==>
              && t.site in r.sites && r.sites[t.site].resource == resource && r.sites[t.site].status == SiteActive
              && id !in r.grants && k !in r.records
              && !exists g :: g in r.grants && r.grants[g].status != Revoked && r.grants[g].terms.site == t.site
                              && r.grants[g].terms.subject == t.subject && r.grants[g].terms.client == t.client)
        && (result.Err? ==> s == r)
        && (result.Ok? ==>
              && result == Ok(Created(id, t.createdAt, t.consentExpiresAt))
              && s == r.(grants := r.grants[id := Grant(t, Pending)], records := r.records[k := Record(digest, id)]))
  {
  }

  /**
    A settlement under a new key succeeds exactly for a pending, unexpired grant of
    the tenant, gives it the status, keeps its terms and every other grant, and
    stores the key. Under a used key nothing changes, and it succeeds exactly for
    the grant and the signer of the first settlement.
  */
  lemma SettleMeaning(r: Registry, tenant: string, id: string, key: string, thumbprint: string, status: GrantStatus,
                      now: int)
    ensures var k := RecordKey(tenant, GrantComplete, key);
      var (s, result) := Settle(r, tenant, id, key, thumbprint, status, now);
      if k in r.records then
        s == r && (result.Ok? <==> r.records[k] == Record(CompletionDigest(id, thumbprint), id))
      else
        && (result.Ok? <==>
              && id in r.grants && r.grants[id].terms.site.tenant == tenant && r.grants[id].status == Pending
              && now < r.grants[id].terms.consentExpiresAt)
        && (result.Err? ==> s == r)
        && (result.Ok? ==>
              s == r.(grants := r.grants[id := Grant(r.grants[id].terms, status)],
                      records := r.records[k := Record(CompletionDigest(id, thumbprint), id)]))
  {
  }

  /**
    A consent is found for completion when it is the tenant's, its site is active,
    and it is pending or this key has already completed it; what is found are its
    terms and its site's resource and key.
  */
  lemma FindMeaning(r: Registry, tenant: string, id: string, key: string)
    requires Linked(r)
    ensures var k := RecordKey(tenant, GrantComplete, key);
      var found := FindPending(r, tenant, id, key);
      && (found.Some? <==>
            && id in r.grants && r.grants[id].terms.site.tenant == tenant
            && r.sites[r.grants[id].terms.site].status == SiteActive
            && (r.grants[id].status == Pending || (k in r.records && r.records[k].reference == id)))
      && (found.Some? ==>
            && found.value.id == id && found.value.terms == r.grants[id].terms
            && found.value.resource == r.sites[r.grants[id].terms.site].resource
            && found.value.publicJwk == r.sites[r.grants[id].terms.site].publicJwk
            && (found.value.completionReplay <==> k in r.records && r.records[k].reference == id))
  {
  }

  /** What the steps of a run do to the grants: a settlement decides, and each revocation ends at most one. */
  lemma StepMeaning(r: Registry, op: Op)
    requires Linked(r)
    ensures match op
      case Complete(tenant, id, key, thumbprint, approve, now) =>
        Next(r, op).grants ==
          if RecordKey(tenant, GrantComplete, key) !in r.records && id in r.grants
             && r.grants[id].terms.site.tenant == tenant && r.grants[id].status == Pending
             && now < r.grants[id].terms.consentExpiresAt
          then r.grants[id := Grant(r.grants[id].terms, if approve then Active else Revoked)] else r.grants
      case RevokeRefresh(id, reason) =>
        Next(r, op).grants == if id in r.grants then r.grants[id := Grant(r.grants[id].terms, Revoked)] else r.grants
      case RevokeByUser(tenant, id) =>
        Next(r, op).grants == if id in r.grants && r.grants[id].terms.site.tenant == tenant
                              then r.grants[id := Grant(r.grants[id].terms, Revoked)] else r.grants
      case RevokeByRepository(tenant, id) =>
        Next(r, op).grants == if id in r.grants && r.grants[id].terms.site.tenant == tenant
                              then r.grants[id := Grant(r.grants[id].terms, Revoked)] else r.grants
      case _ => true
  {
    if (op.RevokeRefresh? || op.RevokeByUser? || op.RevokeByRepository?) && op.id in r.grants
       && r.grants[op.id].status == Revoked {
      assert r.grants[op.id := Grant(r.grants[op.id].terms, Revoked)] == r.grants;
    }
  }

  /** A site is connected, active under its key, unless its name or its resource is taken by a connected one. */
  lemma ConnectMeaning(r: Registry, site: SiteRef, resource: string, jwk: Jwk)
    requires Linked(r)
    ensures Next(r, Connect(site, resource, jwk)) ==
      if site in r.sites
         || (exists s :: s in r.sites && r.sites[s].status in {SitePending, SiteActive, SiteSuspended}
                         && r.sites[s].resource == resource)
      then r else r.(sites := r.sites[site := Site(resource, SiteActive, jwk)])
  {
  }
}
