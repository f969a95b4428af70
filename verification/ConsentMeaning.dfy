/** What the exact lookup, the consent plan, the updated grant and the loader mean, column by column. */
module ConsentMeaning {
  import opened Prelude
  import opened GrantRegistry
  import opened Scopes
  import opened ConsentLoad

  // ------------------------------------------------------------- the lookup

  /** An active consent of the subject for the client, on an active site with the resource. */
  ghost predicate ActiveConsent(r: Registry, id: string, subject: string, client: string, resource: string)
    requires Linked(r)
  {
    && id in r.grants && r.grants[id].status == Active
    && r.grants[id].terms.subject == subject && r.grants[id].terms.client == client
    && r.sites[r.grants[id].terms.site].status == SiteActive
    && r.sites[r.grants[id].terms.site].resource == resource
  }

  /** What the lookup finds is an active consent with exactly the requested set of scopes, as it is stored. */
  lemma FoundIsStored(r: Registry, subject: string, client: string, resource: string, scopes: seq<string>, b: Exact)
    requires Linked(r) && ResolveExact(r, subject, client, resource, scopes) == Ok(Some(b))
    requires forall x :: x in scopes ==> Known(x)
    ensures ActiveConsent(r, b.grantId, subject, client, resource)
    ensures b == Exact(b.grantId, subject, client, resource, r.grants[b.grantId].terms.scopes)
    ensures Members(b.scopes) == Members(scopes)
  {
    var rows := set id | id in r.grants && Fits(r, id, subject, client, resource)
      && r.grants[id].terms.scopes == InOrder(scopes);
    var id :| id in rows && b.grantId == id;
    forall i | 0 <= i < |scopes| ensures Known(scopes[i]) {
      assert scopes[i] in scopes;
    }
    if scopes != [] {
      InOrderIsAccepted(scopes);
    }
  }

  /** In every reachable registry it finds each active consent whose stored scopes are the requested set. */
  lemma StoredIsFound(r: Registry, subject: string, client: string, resource: string, scopes: seq<string>, id: string)
    requires Linked(r) && Reachable(r) && ActiveConsent(r, id, subject, client, resource)
    requires scopes != [] && AllKnown(scopes) && SchemaAccepts(r.grants[id].terms.scopes)
    requires Members(r.grants[id].terms.scopes) == Members(scopes)
    ensures ResolveExact(r, subject, client, resource, scopes)
         == Ok(Some(Exact(id, subject, client, resource, r.grants[id].terms.scopes)))
  {
    ResolveExactDecides(r, subject, client, resource, scopes, id);
  }

  /** The endpoint keeps one resource if all of its at most four are the same and not empty, or there is none. */
  lemma NormalizedMeaning(values: seq<string>)
    ensures NormalizedResources(values).Some? <==>
      values == [] || (|values| <= 4 && values[0] != "" && forall i :: 0 <= i < |values| ==> values[i] == values[0])
    ensures NormalizedResources(values).Some? ==>
      NormalizedResources(values).value == if values == [] then [] else [values[0]]
  {
    if |values| == 1 {
      assert values == [values[0]];
    }
  }

  // --------------------------------------------------------------- the plan

  /** Absent, or one to thirty-two non-empty strings of at most 128 characters. */
  predicate ShortList(d: Detail) {
    d == Undefined
    || (d.Strings? && 1 <= |d.items| <= 32 && forall x :: x in d.items ==> 1 <= |x| <= 128)
  }

  function ItemsOf(d: Detail): seq<string> {
    if d.Strings? then d.items else []
  }

  lemma ListMeaning(d: Detail)
    ensures BoundedStrings(d).Ok? <==> ShortList(d)
    ensures BoundedStrings(d).Ok? ==> Members(BoundedStrings(d).value) == Members(ItemsOf(d))
    ensures BoundedStrings(d).Ok? ==> NoRepeats(BoundedStrings(d).value)
  {
    if d.Strings? {
      DistinctKeepsMembers(d.items);
      if forall x :: x in d.items ==> 1 <= |x| <= 128 {
        assert forall i :: 0 <= i < |d.items| ==> d.items[i] in d.items;
      }
    }
  }

  /** The parts of a plan are what the details report missing, as sets; nothing else is planned. */
  ghost predicate PlansOnly(p: Plan, resource: string, d: PromptDetails) {
    && Members(p.oidcScopes) == Members(ItemsOf(d.oidcScope)) && Members(p.oidcClaims) == Members(ItemsOf(d.oidcClaims))
    && if d.resources == NoResources then p.resourceScopes == []
       else
         && d.resources.Entries? && |d.resources.entries| == 1 && |p.resourceScopes| == 1
         && p.resourceScopes[0].0 == resource
         && Members(p.resourceScopes[0].1) == Members(ItemsOf(d.resources.entries[0].1))
  }

  /** The only missing resource is the consent's own, with a list of scopes that were consented to. */
  ghost predicate OwnResource(m: MissingResources, resource: string, scopes: seq<string>) {
    || m == NoResources
    || (&& m.Entries? && |m.entries| == 1 && m.entries[0].0 == resource && m.entries[0].1.Strings?
        && ShortList(m.entries[0].1) && forall x :: x in m.entries[0].1.items ==> x in scopes)
  }

  lemma ResourcesMeaning(m: MissingResources, resource: string, scopes: seq<string>)
    ensures var plan := PlanResources(m, resource, scopes);
      && (plan.Ok? <==> OwnResource(m, resource, scopes))
      && (plan.Ok? && m == NoResources ==> plan.value == [])
      && (plan.Ok? && m != NoResources ==>
            && |plan.value| == 1 && plan.value[0].0 == resource
            && Members(plan.value[0].1) == Members(ItemsOf(m.entries[0].1)))
  {
    if m.Entries? && |m.entries| == 1 {
      var d := m.entries[0].1;
      ListMeaning(d);
      if BoundedStrings(d).Ok? {
        var items := BoundedStrings(d).value;
        assert forall i :: 0 <= i < |items| ==> items[i] in Members(items);
        assert forall x :: x in ItemsOf(d) ==> x in Members(items);
      }
    }
  }

  lemma AllMeaning(p: string -> bool, s: seq<string>, items: seq<string>)
    requires Members(s) == Members(items)
    ensures All(p, s) <==> forall x :: x in items ==> p(x)
  {
    assert forall i :: 0 <= i < |s| ==> s[i] in Members(items);
    assert forall x :: x in items ==> x in Members(s);
  }

  /**
    A plan is made exactly when the session's grant is none or this consent's, no
    rich authorization is asked for, what is missing of the identity scopes is
    "openid" or "offline_access", of the claims "sub", and of the resources this
    consent's own with consented scopes.
  */
  lemma PlanMeaning(existing: Option<string>, platformId: string, resource: string, scopes: seq<string>,
                    d: PromptDetails)
    ensures var plan := UpdatePlan(existing, platformId, resource, scopes, d);
      && (plan.Ok? <==>
            && (existing == None || existing == Some(platformId)) && !d.rar
            && ShortList(d.oidcScope)
              && (forall x :: x in ItemsOf(d.oidcScope) ==> x == "openid" || x == "offline_access")
            && ShortList(d.oidcClaims) && (forall x :: x in ItemsOf(d.oidcClaims) ==> x == "sub")
            && OwnResource(d.resources, resource, scopes))
      && (plan.Ok? ==> plan.value.existing == existing && PlansOnly(plan.value, resource, d))
  {
    ListMeaning(d.oidcScope);
    ListMeaning(d.oidcClaims);
    ResourcesMeaning(d.resources, resource, scopes);
    if BoundedStrings(d.oidcScope).Ok? {
      AllMeaning(IsOidc, BoundedStrings(d.oidcScope).value, ItemsOf(d.oidcScope));
    }
    if BoundedStrings(d.oidcClaims).Ok? {
      AllMeaning(IsSub, BoundedStrings(d.oidcClaims).value, ItemsOf(d.oidcClaims));
    }
  }

  // ------------------------------------------------------ the updated grant

  /**
    A plan adds to a grant exactly what it lists: its identity scopes, its claims,
    and its scopes of one resource; the grant keeps its owner, its other resources
    and everything it had.
  */
  lemma UpdateMeaning(g: ProviderGrant, p: Plan, resource: string, missing: seq<string>)
    requires p.resourceScopes == EntriesFor(resource, missing, missing)
    requires All(Known, missing) && All(IsOidc, p.oidcScopes)
    ensures var u := Updated(g, p);
      && u.jti == g.jti && u.accountId == g.accountId && u.clientId == g.clientId && u.rar == g.rar
      && Members(Words(u.oidcScope)) == Members(Words(g.oidcScope)) + Members(p.oidcScopes)
      && Members(u.claims) == Members(g.claims) + Members(p.oidcClaims)
      && (forall x :: x in u.resources <==> x in g.resources || (x == resource && missing != []))
      && (forall x :: x in g.resources && x != resource ==> u.resources[x] == g.resources[x])
      && Members(Words(ResourceScope(u, resource))) == Members(Words(ResourceScope(g, resource))) + Members(missing)
  {
    var scoped := if p.oidcScopes == [] then g else g.(oidcScope := Merge(g.oidcScope, Join(p.oidcScopes)));
    OidcMerged(g.oidcScope, p.oidcScopes);
    DistinctKeepsMembers(g.claims + p.oidcClaims);
    assert Members(g.claims + p.oidcClaims) == Members(g.claims) + Members(p.oidcClaims);
    if p.oidcScopes == [] {
      assert Members(p.oidcScopes) == {};
    }
    if p.oidcClaims == [] {
      assert Members(p.oidcClaims) == {};
    }
    EntriesAdded(AddClaims(scoped, p.oidcClaims), resource, missing);
    ScopesAdded(AddClaims(scoped, p.oidcClaims), resource, missing);
  }

  lemma OidcMerged(text: string, missing: seq<string>)
    requires All(IsOidc, missing)
    ensures Members(Words(Merge(text, Join(missing)))) == Members(Words(text)) + Members(missing)
  {
    var all := FewOidc();
    FewAreWords(IsOidc, all, missing);
    MergeMissing(text, missing);
  }

  /** A provider grant of exactly this consent: its parties, this resource alone, and its scopes as a set. */
  ghost predicate IsConsent(g: ProviderGrant, b: Exact) {
    && g.jti == b.grantId && g.accountId == b.subject && g.clientId == b.client && !g.rar
    && g.resources.Keys == {b.resource} && Members(Words(g.resources[b.resource])) == Members(b.scopes)
    && (forall x :: x in Words(g.oidcScope) ==> x == "openid" || x == "offline_access")
    && (forall x :: x in g.claims ==> x == "sub")
  }

  lemma CheckMeaning(g: ProviderGrant, b: Exact)
    requires SchemaAccepts(b.scopes)
    ensures CheckGrant(g, b).Ok? <==> IsConsent(g, b)
  {
    CheckDecides(g, b);
    AllMeaning(IsOidc, Words(g.oidcScope), Words(g.oidcScope));
    AllMeaning(IsSub, g.claims, g.claims);
    assert g.resources.Keys == {b.resource} <==> g.resources.Keys <= {b.resource} && b.resource in g.resources;
  }

  // ------------------------------------------------------------- the loader

  /** A request the loader can serve names its client, an active account, one exact resource and known scopes. */
  ghost predicate Complete(q: Request, active: set<string>, exact: string -> bool, resource: string) {
    && q.client.Some? && q.account.Some? && q.account.value in active
    && (q.resource == One(resource) || q.resource == Many([Some(resource)])) && exact(resource)
    && q.scope.Some?
    && (forall x :: x in Words(q.scope.value) ==> Known(x) || x == "openid" || x == "offline_access")
    && exists x :: x in Words(q.scope.value) && Known(x)
  }

  lemma ServableMeaning(q: Request, active: set<string>, exact: string -> bool, resource: string)
    ensures Servable(q, active, exact) && LoaderResource(q.resource) == Some(resource)
       <==> Complete(q, active, exact, resource)
  {
    if q.resource.Many? && |q.resource.values| == 1 && q.resource.values[0] == Some(resource) {
      assert q.resource.values == [Some(resource)];
    }
    if q.scope.Some? {
      var words := Words(q.scope.value);
      KeepMembers(Known, words);
      assert Allowed(words) <==> forall x :: x in words ==> Known(x) || IsOidc(x) by {
        if forall x :: x in words ==> Known(x) || IsOidc(x) {
          assert forall i :: 0 <= i < |words| ==> words[i] in words;
        }
      }
      if Requested(q.scope.value) != [] {
        assert Requested(q.scope.value)[0] in Requested(q.scope.value);
      }
    }
  }

  /**
    The loader hands out a grant exactly for a complete request whose exact lookup
    finds a consent, submitted or not asked for, whose provider grant is stored and
    is a grant of exactly that consent; it hands out that grant.
  */
  lemma LoadMeaning(r: Registry, store: map<string, ProviderGrant>, active: set<string>, exact: string -> bool,
                    q: Request, g: ProviderGrant)
    requires Linked(r)
    ensures LoadGrant(r, store, active, exact, q) == Ok(Some(g)) ==>
      exists resource, b ::
        Complete(q, active, exact, resource) && Finds(r, q, resource, b)
        && b.grantId in store && store[b.grantId] == g && IsConsent(g, b)
        && (q.submitted == None || q.submitted == Some(b.grantId))
  {
    if LoadGrant(r, store, active, exact, q) == Ok(Some(g)) {
      var resource := LoaderResource(q.resource).value;
      ServableMeaning(q, active, exact, resource);
      var b := ResolveExact(r, q.account.value, q.client.value, resource,
                            Distinct(Requested(q.scope.value))).value.value;
      BoundScopes(r, q, b);
      CheckMeaning(g, b);
      assert Finds(r, q, resource, b);
    }
  }

  ghost predicate Finds(r: Registry, q: Request, resource: string, b: Exact)
    requires Linked(r)
  {
    && q.account.Some? && q.client.Some? && q.scope.Some?
    && ResolveExact(r, q.account.value, q.client.value, resource, Distinct(Requested(q.scope.value))) == Ok(Some(b))
  }

  lemma LoadSucceeds(r: Registry, store: map<string, ProviderGrant>, active: set<string>, exact: string -> bool,
                     q: Request, resource: string, b: Exact)
    requires Linked(r) && Complete(q, active, exact, resource) && Finds(r, q, resource, b)
    requires b.grantId in store && IsConsent(store[b.grantId], b)
    requires q.submitted == None || q.submitted == Some(b.grantId)
    ensures LoadGrant(r, store, active, exact, q) == Ok(Some(store[b.grantId]))
  {
    ServableMeaning(q, active, exact, resource);
    BoundScopes(r, q, b);
    CheckMeaning(store[b.grantId], b);
    LoadedGrant(r, store, active, exact, q, b);
  }
}
