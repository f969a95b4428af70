/**
  The end of a consent interaction and the next load of its grant. The consent
  handler writes a provider grant from what the provider reports missing; the
  loader accepts a provider grant only if it is exactly the stored consent.
*/
module ConsentLoad {
  import opened Prelude
  import opened GrantRegistry
  import opened Scopes

  // --------------------------------------------------------- exact binding

  datatype Exact = Exact(grantId: string, subject: string, client: string, resource: string, scopes: seq<string>)

  ghost predicate Fits(r: Registry, id: string, subject: string, client: string, resource: string)
    requires Linked(r)
  {
    && id in r.grants && r.grants[id].terms.subject == subject && r.grants[id].terms.client == client
    && r.sites[r.grants[id].terms.site].resource == resource
    && r.grants[id].status.Active? && r.sites[r.grants[id].terms.site].status.SiteActive?
  }

  ghost function ResolveExact(r: Registry, subject: string, client: string, resource: string, scopes: seq<string>)
    : Result<Option<Exact>>
    requires Linked(r)
  {
    var wanted := InOrder(scopes);
    var rows := set id | id in r.grants && Fits(r, id, subject, client, resource)
      && r.grants[id].terms.scopes == wanted;
    if wanted == [] || |rows| == 0 then Ok(None)
    else if |rows| > 1 then Err("authorization_grant_ambiguous")
    else
      var id :| id in rows;
      if SchemaAccepts(r.grants[id].terms.scopes)
      then Ok(Some(Exact(id, subject, client, resource, r.grants[id].terms.scopes)))
      else Err("scope_set_invalid")
  }

  predicate SameParties(a: Terms, b: Terms) {
    a.site == b.site && a.subject == b.subject && a.client == b.client
  }

  /** The unique index on live consents. */
  ghost predicate OneConsent(r: Registry) {
    forall a, b :: a in r.grants && b in r.grants && a != b && Live(r.grants[a]) && Live(r.grants[b]) ==>
      !SameParties(r.grants[a].terms, r.grants[b].terms)
  }

  /** The unique index on live sites. */
  ghost predicate OneSite(r: Registry) {
    forall s, t ::
      s in r.sites && t in r.sites && s != t && Connected(r.sites[s].status) && Connected(r.sites[t].status) ==>
      r.sites[s].resource != r.sites[t].resource
  }

  lemma OnlyCreateAddsGrants(r: Registry, op: Op)
    requires Linked(r) && !op.Create?
    ensures Next(r, op).grants.Keys == r.grants.Keys
  {
  }

  lemma NextKeepsOneConsent(r: Registry, op: Op)
    requires Linked(r) && OneConsent(r)
    ensures OneConsent(Next(r, op))
  {
    var s := Next(r, op);
    if !op.Create? {
      OnlyCreateAddsGrants(r, op);
      NextAdvances(r, op);
      forall a, b | a in s.grants && b in s.grants && a != b && Live(s.grants[a]) && Live(s.grants[b])
        ensures !SameParties(s.grants[a].terms, s.grants[b].terms)
      {
        assert a in r.grants && b in r.grants && Live(r.grants[a]) && Live(r.grants[b]);
      }
    }
  }

  lemma NextKeepsOneSite(r: Registry, op: Op)
    requires Linked(r) && OneSite(r)
    ensures OneSite(Next(r, op))
  {
    if op.Connect? || op.Disconnect? {
    } else {
      assert Next(r, op).sites == r.sites;
    }
  }

  ghost function RunRegistry(r: Registry, ops: seq<Op>): (s: Registry)
    requires Linked(r)
    ensures Linked(s)
  {
    if ops == [] then r
    else
      var s := RunRegistry(r, ops[..|ops| - 1]);
      NextAdvances(s, ops[|ops| - 1]);
      Next(s, ops[|ops| - 1])
  }

  lemma {:induction false} RunKeepsIndexes(r: Registry, ops: seq<Op>)
    requires Linked(r) && OneConsent(r) && OneSite(r)
    ensures OneConsent(RunRegistry(r, ops)) && OneSite(RunRegistry(r, ops))
  {
    if ops != [] {
      var s := RunRegistry(r, ops[..|ops| - 1]);
      RunKeepsIndexes(r, ops[..|ops| - 1]);
      NextKeepsOneConsent(s, ops[|ops| - 1]);
      NextKeepsOneSite(s, ops[|ops| - 1]);
    }
  }

  /** The registry after some run from tables that keep the two indexes. */
  ghost predicate Reachable(r: Registry) {
    exists start, ops :: Linked(start) && OneConsent(start) && OneSite(start) && r == RunRegistry(start, ops)
  }

  /** The only active consent of its subject, client and resource. */
  lemma FitIsUnique(r: Registry, subject: string, client: string, resource: string, a: string, b: string)
    requires Linked(r) && OneConsent(r) && OneSite(r)
    requires Fits(r, a, subject, client, resource) && Fits(r, b, subject, client, resource)
    ensures a == b
  {
    assert r.grants[a].terms.site == r.grants[b].terms.site;
    assert SameParties(r.grants[a].terms, r.grants[b].terms);
  }

  /**
    In every reachable registry an exact lookup finds the active consent of its
    subject, client and resource when the requested scopes are, as a set, its
    scopes, and nothing otherwise. It is never ambiguous.
  */
  lemma ResolveExactDecides(r: Registry, subject: string, client: string, resource: string, scopes: seq<string>,
                            id: string)
    requires Linked(r) && Reachable(r) && scopes != [] && AllKnown(scopes)
    requires Fits(r, id, subject, client, resource) && SchemaAccepts(r.grants[id].terms.scopes)
    ensures var stored := r.grants[id].terms.scopes;
      ResolveExact(r, subject, client, resource, scopes)
        == Ok(if Members(stored) == Members(scopes) then Some(Exact(id, subject, client, resource, stored)) else None)
  {
    var start, ops :| Linked(start) && OneConsent(start) && OneSite(start) && r == RunRegistry(start, ops);
    RunKeepsIndexes(start, ops);
    InOrderIsAccepted(scopes);
    AcceptedIsUnique(r.grants[id].terms.scopes, InOrder(scopes));
    var rows := set other | other in r.grants && Fits(r, other, subject, client, resource)
      && r.grants[other].terms.scopes == InOrder(scopes);
    forall other | Fits(r, other, subject, client, resource) ensures other == id {
      FitIsUnique(r, subject, client, resource, other, id);
    }
    if Members(r.grants[id].terms.scopes) == Members(scopes) {
      assert rows == {id};
    } else {
      assert rows == {};
    }
  }

  lemma KnownAreWords(scopes: seq<string>)
    requires AllKnown(scopes)
    ensures forall i :: 0 <= i < |scopes| ==> Word(scopes[i])
  {
  }

  /** Array equality with the sorted request and equality of the loader's texts are both equality of sets. */
  lemma SameDecision(stored: seq<string>, requested: seq<string>)
    requires SchemaAccepts(stored) && requested != [] && AllKnown(requested)
    ensures stored == InOrder(requested) <==> Members(stored) == Members(requested)
    ensures ScopeSet(stored) == ScopeSet(requested) <==> Members(stored) == Members(requested)
  {
    InOrderIsAccepted(requested);
    AcceptedIsUnique(stored, InOrder(requested));
    KnownAreWords(stored);
    KnownAreWords(requested);
    ScopeSetDecides(stored, requested);
  }

  // --------------------------------------------------------- provider grant

  datatype ProviderGrant = ProviderGrant(
    jti: string, accountId: string, clientId: string, oidcScope: string, claims: seq<string>,
    resources: map<string, string>, rar: bool)

  /** The provider keeps scopes as text and adds to it what is not yet there. */
  function Merge(text: string, more: string): string {
    if text == "" then more else Join(Distinct(Words(text) + Words(more)))
  }

  function ResourceScope(g: ProviderGrant, resource: string): string {
    if resource in g.resources then g.resources[resource] else ""
  }

  function AddResourceScope(g: ProviderGrant, resource: string, text: string): ProviderGrant {
    g.(resources := g.resources[resource := Merge(ResourceScope(g, resource), text)])
  }

  function AddResourceScopes(g: ProviderGrant, missing: seq<(string, seq<string>)>): ProviderGrant {
    if missing == [] then g
    else
      var last := missing[|missing| - 1];
      AddResourceScope(AddResourceScopes(g, missing[..|missing| - 1]), last.0, Join(last.1))
  }

  function AddClaims(g: ProviderGrant, claims: seq<string>): ProviderGrant {
    if claims == [] then g else g.(claims := Distinct(g.claims + claims))
  }

  predicate IsOidc(scope: string) {
    scope == "openid" || scope == "offline_access"
  }

  predicate IsSub(claim: string) {
    claim == "sub"
  }

  predicate All(p: string -> bool, s: seq<string>) {
    forall i :: 0 <= i < |s| ==> p(s[i])
  }

  lemma MergeWords(text: string, more: string)
    ensures Members(Words(Merge(text, more))) == Members(Words(text)) + Members(Words(more))
  {
    var all := Words(text) + Words(more);
    assert Members(all) == Members(Words(text)) + Members(Words(more));
    if text != "" {
      WordsAreWords("", text);
      WordsAreWords("", more);
      DistinctKeepsMembers(all);
      SortedWords(Distinct(all), all);
      JoinRoundTrip(Distinct(all));
    }
  }

  // ------------------------------------------------------------ the loader

  datatype ResourceParam = One(value: string) | Many(values: seq<Option<string>>) | Other

  datatype Request = Request(
    account: Option<string>, client: Option<string>, resource: ResourceParam, scope: Option<string>,
    claims: seq<string>, submitted: Option<string>)

  function LoaderResource(p: ResourceParam): Option<string> {
    match p
    case One(value) => Some(value)
    case Many(values) => if |values| == 1 then values[0] else None
    case Other => None
  }

  function InteractionResource(p: ResourceParam): Option<string> {
    match p
    case One(value) => Some(value)
    case Many(values) =>
      if |values| == 0 || |values| > 4 then None
      else if forall i :: 0 <= i < |values| ==> values[i] == values[0] then values[0] else None
    case Other => None
  }

  /** The authorization endpoint's URL: its resource parameters, collapsed to one, or None for a refusal. */
  function NormalizedResources(values: seq<string>): Option<seq<string>> {
    if |values| <= 1 then (if forall i :: 0 <= i < |values| ==> values[i] != "" then Some(values) else None)
    else if values[0] == "" || |values| > 4 || !(forall i :: 0 <= i < |values| ==> values[i] == values[0]) then None
    else Some([values[0]])
  }

  function ParamOf(values: seq<string>): ResourceParam {
    if values == [] then Other
    else if |values| == 1 then One(values[0])
    else Many(seq(|values|, i requires 0 <= i < |values| => Some(values[i])))
  }

  /**
    The interaction accepts one resource repeated up to four times and the loader
    only one resource once; they differ exactly on repetitions, and no repetition
    is left after the endpoint's normalisation, which keeps the resource.
  */
  lemma ResourceAgreement(values: seq<string>)
    requires values != []
    ensures InteractionResource(ParamOf(values)) != LoaderResource(ParamOf(values)) <==>
      1 < |values| <= 4 && forall i :: 0 <= i < |values| ==> values[i] == values[0]
    ensures var kept := NormalizedResources(values);
      kept.Some? ==>
        InteractionResource(ParamOf(kept.value)) == LoaderResource(ParamOf(kept.value))
          == InteractionResource(ParamOf(values))
  {
    if |values| > 1 {
      var many := ParamOf(values).values;
      if forall i :: 0 <= i < |values| ==> values[i] == values[0] {
        assert forall i :: 0 <= i < |many| ==> many[i] == many[0];
      } else {
        var i :| 0 <= i < |values| && values[i] != values[0];
        assert many[i] != many[0];
      }
    }
  }

  function Requested(scope: string): seq<string> {
    Keep(Known, Words(scope))
  }

  predicate Allowed(words: seq<string>) {
    forall i :: 0 <= i < |words| ==> Known(words[i]) || IsOidc(words[i])
  }

  /** The last checks of the loader: a provider grant against the exact binding. */
  function CheckGrant(g: ProviderGrant, b: Exact): Result<()> {
    if g.jti != b.grantId then Err("grant.binding_mismatch")
    else if g.accountId != b.subject then Err("grant.account_mismatch")
    else if g.clientId != b.client then Err("grant.client_mismatch")
    else if g.resources.Keys != {b.resource} then Err("grant.resource_mismatch")
    else if ScopeSet(Words(ResourceScope(g, b.resource))) != ScopeSet(b.scopes)
            || !All(IsOidc, Words(g.oidcScope)) || !All(IsSub, g.claims) || g.rar then Err("grant.scope_mismatch")
    else Ok(())
  }

  /** The loader; `exact` says which resources are their own canonical form, `active` which accounts are. */
  ghost function LoadGrant(r: Registry, store: map<string, ProviderGrant>, active: set<string>, exact: string -> bool,
                           q: Request)
    : Result<Option<ProviderGrant>>
    requires Linked(r)
  {
    var resource := LoaderResource(q.resource);
    if q.client.None? then Err("grant.client_mismatch")
    else if q.account.None? then Err("grant.account_mismatch")
    else if resource.None? || !exact(resource.value) then Err("grant.resource_mismatch")
    else if q.scope.None? || !Allowed(Words(q.scope.value)) || Requested(q.scope.value) == [] then
      Err("grant.scope_mismatch")
    else if q.account.value !in active then Err("grant.account_mismatch")
    else
      var found := ResolveExact(r, q.account.value, q.client.value, resource.value, Distinct(Requested(q.scope.value)));
      if found.Err? then Err("grant.lookup_failed")
      else
        var b := found.value;
        if q.submitted.Some? && (b.None? || q.submitted.value != b.value.grantId) then Err("grant.binding_mismatch")
        else if b.None? then Ok(None)
        else if ScopeSet(b.value.scopes) != ScopeSet(Requested(q.scope.value)) then Err("grant.scope_mismatch")
        else if b.value.grantId !in store then
          (if q.submitted.Some? then Err("grant.provider_missing") else Ok(None))
        else
          var checked := CheckGrant(store[b.value.grantId], b.value);
          if checked.Err? then Err(checked.error) else Ok(Some(store[b.value.grantId]))
  }

  // ------------------------------------------------------- the consent plan

  /** A value from the prompt's details: absent, an array of strings, or anything else. */
  datatype Detail = Undefined | Strings(items: seq<string>) | Malformed

  datatype MissingResources = NoResources | Entries(entries: seq<(string, Detail)>) | NotAnObject

  datatype PromptDetails = PromptDetails(rar: bool, oidcScope: Detail, oidcClaims: Detail, resources: MissingResources)

  datatype Plan = Plan(
    existing: Option<string>, oidcScopes: seq<string>, oidcClaims: seq<string>,
    resourceScopes: seq<(string, seq<string>)>)

  predicate Bounded(items: seq<string>) {
    0 < |items| <= 32 && forall i :: 0 <= i < |items| ==> 0 < |items[i]| <= 128
  }

  function BoundedStrings(d: Detail): Result<seq<string>> {
    if d.Undefined? then Ok([])
    else if d.Strings? && Bounded(d.items) then Ok(Distinct(d.items))
    else Err("grant.scope_mismatch")
  }

  function PlanResources(m: MissingResources, resource: string, scopes: seq<string>)
    : Result<seq<(string, seq<string>)>>
  {
    if m.NoResources? then Ok([])
    else if m.NotAnObject? || |m.entries| != 1 || m.entries[0].0 != resource then Err("grant.resource_mismatch")
    else
      var missing := BoundedStrings(m.entries[0].1);
      if missing.Err? || m.entries[0].1.Undefined?
        || !(forall i :: 0 <= i < |missing.value| ==> missing.value[i] in scopes)
      then Err("grant.scope_mismatch")
      else Ok([(resource, missing.value)])
  }

  function UpdatePlan(providerGrantId: Option<string>, platformGrantId: string, resource: string, scopes: seq<string>,
                      d: PromptDetails)
    : Result<Plan>
  {
    if providerGrantId.Some? && providerGrantId.value != platformGrantId then Err("grant.binding_mismatch")
    else if d.rar then Err("grant.scope_mismatch")
    else
      var oidc := BoundedStrings(d.oidcScope);
      if oidc.Err? || !All(IsOidc, oidc.value) then Err("grant.scope_mismatch")
      else
        var claims := BoundedStrings(d.oidcClaims);
        if claims.Err? || !All(IsSub, claims.value) then Err("grant.scope_mismatch")
        else
          var resources := PlanResources(d.resources, resource, scopes);
          if resources.Err? then Err(resources.error)
          else Ok(Plan(providerGrantId, oidc.value, claims.value, resources.value))
  }

  function NewGrant(b: Exact): ProviderGrant {
    ProviderGrant(b.grantId, b.subject, b.client, "", [], map[], false)
  }

  function Updated(g: ProviderGrant, p: Plan): ProviderGrant {
    var scoped := if p.oidcScopes == [] then g else g.(oidcScope := Merge(g.oidcScope, Join(p.oidcScopes)));
    AddResourceScopes(AddClaims(scoped, p.oidcClaims), p.resourceScopes)
  }

  /** The provider's grants, as the approval branch of the interaction handler changes them. */
  class ConsentInteraction {
    var store: map<string, ProviderGrant>

    constructor (store: map<string, ProviderGrant>)
      ensures this.store == store
    {
      this.store := store;
    }

    /** Loads or creates the grant, adds what the plan says, saves it, and returns the grant id to submit, if any. */
    method Approve(providerGrantId: Option<string>, b: Exact, scopes: seq<string>, d: PromptDetails)
      returns (result: Result<Option<string>>)
      modifies this
      ensures result.Err? ==>
        || store == old(store)
        || (b.grantId in old(store) && old(store)[b.grantId].jti != b.grantId
            && store.Keys == old(store).Keys + {old(store)[b.grantId].jti}
            && forall g :: g in old(store) && g != old(store)[b.grantId].jti ==> store[g] == old(store)[g])
      ensures result.Ok? <==>
        && UpdatePlan(providerGrantId, b.grantId, b.resource, scopes, d).Ok?
        && (providerGrantId.Some? ==> b.grantId in old(store) && old(store)[b.grantId].jti == b.grantId)
      ensures result.Ok? ==>
        && store == old(store)[b.grantId := Updated(
             if providerGrantId.None? then NewGrant(b) else old(store)[b.grantId],
             UpdatePlan(providerGrantId, b.grantId, b.resource, scopes, d).value)]
        && result.value == (if providerGrantId.None? then Some(b.grantId) else None)
    {
      var plan := UpdatePlan(providerGrantId, b.grantId, b.resource, scopes, d);
      if plan.Err? {
        return Err(plan.error);
      }
      var update := plan.value;
      if update.existing.Some? && update.existing.value !in store {
        return Err("grant.provider_missing");
      }
      var start := if update.existing.None? then NewGrant(b) else store[update.existing.value];
      var grant := start;
      if update.oidcScopes != [] {
        grant := grant.(oidcScope := Merge(grant.oidcScope, Join(update.oidcScopes)));
      }
      grant := AddClaims(grant, update.oidcClaims);
      ghost var before := grant;
      for i := 0 to |update.resourceScopes|
        invariant grant == AddResourceScopes(before, update.resourceScopes[..i])
        invariant grant.jti == start.jti
      {
        var missing := update.resourceScopes[i];
        assert update.resourceScopes[..i + 1][..i] == update.resourceScopes[..i];
        grant := AddResourceScope(grant, missing.0, Join(missing.1));
      }
      assert update.resourceScopes[..|update.resourceScopes|] == update.resourceScopes;
      store := store[grant.jti := grant];
      if grant.jti != b.grantId {
        return Err("grant.binding_mismatch");
      }
      result := Ok(if update.existing.None? then Some(grant.jti) else None);
    }
  }

  // ------------------------------------------------------ consent, then load

  /** Requested minus granted, each once. */
  function Missing(wanted: seq<string>, granted: seq<string>): seq<string> {
    if wanted == [] then []
    else
      var earlier := Missing(wanted[..|wanted| - 1], granted);
      var last := wanted[|wanted| - 1];
      if last in granted || last in earlier then earlier else earlier + [last]
  }

  lemma {:induction false} MissingMembers(wanted: seq<string>, granted: seq<string>)
    ensures NoRepeats(Missing(wanted, granted))
    ensures Members(Missing(wanted, granted)) == Members(wanted) - Members(granted)
  {
    if wanted != [] {
      MissingMembers(wanted[..|wanted| - 1], granted);
      MembersSnoc(wanted);
      var earlier, last := Missing(wanted[..|wanted| - 1], granted), wanted[|wanted| - 1];
      if last !in granted && last !in earlier {
        MembersSnoc(Missing(wanted, granted));
      } else if last !in granted {
        assert last in Members(earlier);
      }
    }
  }

  lemma {:induction false} DistinctAlready(s: seq<string>)
    requires NoRepeats(s)
    ensures Distinct(s) == s
  {
    if s != [] {
      DistinctAlready(s[..|s| - 1]);
    }
  }

  function Reporting(items: seq<string>): Detail {
    if items == [] then Undefined else Strings(items)
  }

  function MissingOidc(g: ProviderGrant, scope: string): seq<string> {
    Missing(Keep(IsOidc, Words(scope)), Words(g.oidcScope))
  }

  function MissingScopes(g: ProviderGrant, scope: string, resource: string): seq<string> {
    Missing(Requested(scope), Words(ResourceScope(g, resource)))
  }

  function EntriesFor<T>(resource: string, missing: seq<string>, entry: T): seq<(string, T)> {
    if missing == [] then [] else [(resource, entry)]
  }

  /** What the provider reports for a request against the grant in use: requested minus granted. */
  function Reported(g: ProviderGrant, scope: string, claims: seq<string>, resource: string): PromptDetails {
    var missing := MissingScopes(g, scope, resource);
    PromptDetails(
      false, Reporting(MissingOidc(g, scope)), Reporting(Missing(claims, g.claims)),
      if missing == [] then NoResources else Entries([(resource, Strings(missing))]))
  }

  lemma {:induction false} SubsetCount(a: set<string>, b: set<string>)
    requires a <= b
    ensures |a| <= |b|
  {
    if a != {} {
      var x :| x in a;
      SubsetCount(a - {x}, b - {x});
    }
  }

  /** The few short strings that satisfy `p`. */
  ghost predicate Few(p: string -> bool, all: set<string>) {
    |all| <= 32 && forall x :: (x in all <==> p(x)) && (p(x) ==> 0 < |x| <= 128 && Word(x))
  }

  function ScopeNames(): set<string> {
    {"mcp:read", "mcp:content.write", "mcp:media.write", "mcp:taxonomy.write", "mcp:seo.write"}
  }

  lemma KnownIsNamed(x: string)
    ensures x in ScopeNames() <==> Known(x)
    ensures Known(x) ==> 0 < |x| <= 128 && Word(x)
  {
  }

  lemma FewScopes() returns (all: set<string>)
    ensures Few(Known, all)
  {
    all := ScopeNames();
    forall x ensures (x in all <==> Known(x)) && (Known(x) ==> 0 < |x| <= 128 && Word(x)) {
      KnownIsNamed(x);
    }
  }

  lemma FewOidc() returns (all: set<string>)
    ensures Few(IsOidc, all)
  {
    all := {"openid", "offline_access"};
  }

  lemma FewClaims() returns (all: set<string>)
    ensures Few(IsSub, all)
  {
    all := {"sub"};
  }

  lemma FewAreWords(p: string -> bool, all: set<string>, s: seq<string>)
    requires Few(p, all) && All(p, s)
    ensures All(Word, s)
  {
  }

  /** What is missing of a few strings passes the bounds on a reported array. */
  lemma ReportedPart(p: string -> bool, all: set<string>, wanted: seq<string>, granted: seq<string>)
    requires Few(p, all) && All(p, wanted)
    ensures BoundedStrings(Reporting(Missing(wanted, granted))) == Ok(Missing(wanted, granted))
    ensures All(p, Missing(wanted, granted))
  {
    var items := Missing(wanted, granted);
    MissingMembers(wanted, granted);
    forall i | 0 <= i < |items| ensures items[i] in all && p(items[i]) {
      assert items[i] in Members(items);
    }
    NoRepeatsCount(items);
    SubsetCount(Members(items), all);
    DistinctAlready(items);
  }

  lemma KeepAll(p: string -> bool, s: seq<string>)
    ensures All(p, Keep(p, s))
  {
    KeepMembers(p, s);
    forall i | 0 <= i < |Keep(p, s)| ensures p(Keep(p, s)[i]) {
      assert Keep(p, s)[i] in Keep(p, s);
    }
  }

  lemma ResourcesAccepted(resource: string, missing: seq<string>, scopes: seq<string>)
    requires BoundedStrings(Reporting(missing)) == Ok(missing) && Members(missing) <= Members(scopes)
    ensures PlanResources(if missing == [] then NoResources else Entries([(resource, Strings(missing))]), resource,
                          scopes)
      == Ok(EntriesFor(resource, missing, missing))
  {
    forall i | 0 <= i < |missing| ensures missing[i] in scopes {
      assert missing[i] in Members(missing);
    }
  }

  lemma ScopesReported(wanted: seq<string>, granted: seq<string>)
    requires All(Known, wanted)
    ensures BoundedStrings(Reporting(Missing(wanted, granted))) == Ok(Missing(wanted, granted))
    ensures All(Known, Missing(wanted, granted))
    ensures Members(Missing(wanted, granted)) == Members(wanted) - Members(granted)
  {
    var all := FewScopes();
    ReportedPart(Known, all, wanted, granted);
    MissingMembers(wanted, granted);
  }

  lemma ResourcesPlanned(g: ProviderGrant, scope: string, resource: string, scopes: seq<string>)
    requires Members(scopes) == Members(Requested(scope))
    ensures var missing := MissingScopes(g, scope, resource);
      PlanResources(if missing == [] then NoResources else Entries([(resource, Strings(missing))]), resource, scopes)
        == Ok(EntriesFor(resource, missing, missing))
  {
    KeepAll(Known, Words(scope));
    ScopesReported(Requested(scope), Words(ResourceScope(g, resource)));
    ResourcesAccepted(resource, MissingScopes(g, scope, resource), scopes);
  }

  lemma OidcPlanned(g: ProviderGrant, scope: string)
    ensures BoundedStrings(Reporting(MissingOidc(g, scope))) == Ok(MissingOidc(g, scope))
    ensures All(IsOidc, MissingOidc(g, scope))
  {
    var all := FewOidc();
    KeepAll(IsOidc, Words(scope));
    ReportedPart(IsOidc, all, Keep(IsOidc, Words(scope)), Words(g.oidcScope));
  }

  lemma ClaimsPlanned(g: ProviderGrant, claims: seq<string>)
    requires All(IsSub, claims)
    ensures BoundedStrings(Reporting(Missing(claims, g.claims))) == Ok(Missing(claims, g.claims))
    ensures All(IsSub, Missing(claims, g.claims))
  {
    var all := FewClaims();
    ReportedPart(IsSub, all, claims, g.claims);
  }

  /** For what the provider reports, the plan is made whenever the session's grant is none or the platform's. */
  lemma PlanIsMade(existing: Option<string>, platformId: string, g: ProviderGrant, scope: string, claims: seq<string>,
                   resource: string, scopes: seq<string>)
    requires Members(scopes) == Members(Requested(scope)) && All(IsSub, claims)
    ensures UpdatePlan(existing, platformId, resource, scopes, Reported(g, scope, claims, resource))
        == if existing.Some? && existing.value != platformId then Err("grant.binding_mismatch")
           else Ok(Plan(existing, MissingOidc(g, scope), Missing(claims, g.claims),
                        EntriesFor(resource, MissingScopes(g, scope, resource), MissingScopes(g, scope, resource))))
  {
    ResourcesPlanned(g, scope, resource, scopes);
    OidcPlanned(g, scope);
    ClaimsPlanned(g, claims);
  }

  /** A provider grant of this consent and of nothing else, possibly with less than its scopes. */
  ghost predicate ExactlyBound(g: ProviderGrant, b: Exact) {
    && g.jti == b.grantId && g.accountId == b.subject && g.clientId == b.client
    && g.resources.Keys <= {b.resource}
    && Members(Words(ResourceScope(g, b.resource))) <= Members(b.scopes)
    && All(IsOidc, Words(g.oidcScope)) && All(IsSub, g.claims) && !g.rar
  }

  /** What the loader's last checks mean. */
  lemma CheckDecides(g: ProviderGrant, b: Exact)
    requires SchemaAccepts(b.scopes)
    ensures CheckGrant(g, b).Ok? <==>
      && ExactlyBound(g, b) && b.resource in g.resources
        && Members(Words(ResourceScope(g, b.resource))) == Members(b.scopes)
  {
    var granted := Words(ResourceScope(g, b.resource));
    KnownAreWords(b.scopes);
    WordsAreWords("", ResourceScope(g, b.resource));
    ScopeSetDecides(granted, b.scopes);
    assert g.resources.Keys == {b.resource} <==> g.resources.Keys <= {b.resource} && b.resource in g.resources;
  }

  lemma AllOfUnion(p: string -> bool, u: seq<string>, a: seq<string>, b: seq<string>)
    requires Members(u) == Members(a) + Members(b) && All(p, b)
    ensures All(p, u) <==> All(p, a)
  {
    assert forall i :: 0 <= i < |u| ==> u[i] in Members(u);
    assert forall i :: 0 <= i < |a| ==> a[i] in Members(u);
  }

  lemma MergeMissing(text: string, missing: seq<string>)
    requires All(Word, missing)
    ensures Members(Words(Merge(text, Join(missing)))) == Members(Words(text)) + Members(missing)
  {
    MergeWords(text, Join(missing));
    JoinRoundTrip(missing);
  }

  lemma OidcAdded(text: string, missing: seq<string>)
    requires All(IsOidc, missing)
    ensures All(IsOidc, Words(Merge(text, Join(missing)))) <==> All(IsOidc, Words(text))
  {
    var all := FewOidc();
    FewAreWords(IsOidc, all, missing);
    MergeMissing(text, missing);
    AllOfUnion(IsOidc, Words(Merge(text, Join(missing))), Words(text), missing);
  }

  lemma ClaimsAdded(g: ProviderGrant, missing: seq<string>)
    requires All(IsSub, missing)
    ensures All(IsSub, AddClaims(g, missing).claims) <==> All(IsSub, g.claims)
  {
    DistinctKeepsMembers(g.claims + missing);
    assert Members(g.claims + missing) == Members(g.claims) + Members(missing);
    if missing != [] {
      AllOfUnion(IsSub, AddClaims(g, missing).claims, g.claims, missing);
    }
  }

  lemma EntriesAdded(g: ProviderGrant, resource: string, missing: seq<string>)
    ensures AddResourceScopes(g, EntriesFor(resource, missing, missing))
      == if missing == [] then g else AddResourceScope(g, resource, Join(missing))
  {
    var entries := EntriesFor(resource, missing, missing);
    if missing != [] {
      assert entries[..|entries| - 1] == [];
      assert AddResourceScopes(g, []) == g;
    }
  }

  lemma ScopesMerged(text: string, missing: seq<string>)
    requires All(Known, missing)
    ensures Members(Words(Merge(text, Join(missing)))) == Members(Words(text)) + Members(missing)
  {
    var all := FewScopes();
    FewAreWords(Known, all, missing);
    MergeMissing(text, missing);
  }

  lemma ScopesAdded(g: ProviderGrant, resource: string, missing: seq<string>)
    requires All(Known, missing)
    ensures var u := AddResourceScopes(g, EntriesFor(resource, missing, missing));
      && u == g.(resources := u.resources)
      && u.resources.Keys == g.resources.Keys + (if missing == [] then {} else {resource})
      && Members(Words(ResourceScope(u, resource))) == Members(Words(ResourceScope(g, resource))) + Members(missing)
  {
    EntriesAdded(g, resource, missing);
    if missing == [] {
      assert Members(missing) == {};
    } else {
      ScopesMerged(ResourceScope(g, resource), missing);
    }
  }

  lemma UpdateKeeps(g: ProviderGrant, p: Plan, resource: string, missing: seq<string>)
    requires p.resourceScopes == EntriesFor(resource, missing, missing)
    requires All(Known, missing) && All(IsOidc, p.oidcScopes) && All(IsSub, p.oidcClaims)
    ensures var u := Updated(g, p);
      && u.jti == g.jti && u.accountId == g.accountId && u.clientId == g.clientId && u.rar == g.rar
      && (All(IsOidc, Words(u.oidcScope)) <==> All(IsOidc, Words(g.oidcScope)))
      && (All(IsSub, u.claims) <==> All(IsSub, g.claims))
      && u.resources.Keys == g.resources.Keys + (if missing == [] then {} else {resource})
      && Members(Words(ResourceScope(u, resource))) == Members(Words(ResourceScope(g, resource))) + Members(missing)
  {
    OidcAdded(g.oidcScope, p.oidcScopes);
    var scoped := if p.oidcScopes == [] then g else g.(oidcScope := Merge(g.oidcScope, Join(p.oidcScopes)));
    ClaimsAdded(scoped, p.oidcClaims);
    ScopesAdded(AddClaims(scoped, p.oidcClaims), resource, missing);
  }

  /** The plan leaves the grant as exactly bound as it was, and completes the resource scopes of a bound one. */
  lemma PlannedGrant(g: ProviderGrant, p: Plan, scope: string, claims: seq<string>, b: Exact)
    requires b.scopes != [] && Members(b.scopes) == Members(Requested(scope)) && All(IsSub, claims)
    requires p.oidcScopes == MissingOidc(g, scope) && p.oidcClaims == Missing(claims, g.claims)
    requires p.resourceScopes
      == EntriesFor(b.resource, MissingScopes(g, scope, b.resource), MissingScopes(g, scope, b.resource))
    ensures ExactlyBound(Updated(g, p), b) <==> ExactlyBound(g, b)
    ensures ExactlyBound(g, b) ==> Updated(g, p).resources.Keys == {b.resource}
    ensures ExactlyBound(g, b) ==> Members(Words(ResourceScope(Updated(g, p), b.resource))) == Members(b.scopes)
  {
    var missing := MissingScopes(g, scope, b.resource);
    OidcPlanned(g, scope);
    ClaimsPlanned(g, claims);
    KeepAll(Known, Words(scope));
    ScopesReported(Requested(scope), Words(ResourceScope(g, b.resource)));
    UpdateKeeps(g, p, b.resource, missing);
    BoundStaysBound(g, Updated(g, p), b, missing);
  }

  lemma BoundStaysBound(g: ProviderGrant, u: ProviderGrant, b: Exact, missing: seq<string>)
    requires b.scopes != [] && Members(missing) == Members(b.scopes) - Members(Words(ResourceScope(g, b.resource)))
    requires u.jti == g.jti && u.accountId == g.accountId && u.clientId == g.clientId && u.rar == g.rar
    requires All(IsOidc, Words(u.oidcScope)) <==> All(IsOidc, Words(g.oidcScope))
    requires All(IsSub, u.claims) <==> All(IsSub, g.claims)
    requires u.resources.Keys == g.resources.Keys + (if missing == [] then {} else {b.resource})
    requires Members(Words(ResourceScope(u, b.resource)))
      == Members(Words(ResourceScope(g, b.resource))) + Members(missing)
    ensures ExactlyBound(u, b) <==> ExactlyBound(g, b)
    ensures ExactlyBound(g, b) ==> u.resources.Keys == {b.resource}
    ensures ExactlyBound(g, b) ==> Members(Words(ResourceScope(u, b.resource))) == Members(b.scopes)
  {
    if missing == [] {
      AllGranted(b.scopes, Words(ResourceScope(g, b.resource)));
    }
  }

  lemma AllGranted(scopes: seq<string>, granted: seq<string>)
    requires scopes != [] && Members(scopes) - Members(granted) == {}
    ensures granted != []
  {
    assert scopes[0] in Members(scopes) && scopes[0] !in Members(scopes) - Members(granted);
    assert scopes[0] in Members(granted);
  }

  /** A request that the loader takes to the lookup of its consent. */
  predicate Servable(q: Request, active: set<string>, exact: string -> bool) {
    && q.client.Some? && q.account.Some? && q.account.value in active
    && LoaderResource(q.resource).Some? && exact(LoaderResource(q.resource).value)
    && q.scope.Some? && Allowed(Words(q.scope.value)) && Requested(q.scope.value) != []
  }

  ghost predicate Bound(r: Registry, q: Request, b: Exact)
    requires Linked(r)
  {
    && q.client.Some? && q.account.Some? && LoaderResource(q.resource).Some? && q.scope.Some?
    && ResolveExact(r, q.account.value, q.client.value, LoaderResource(q.resource).value,
                    Distinct(Requested(q.scope.value))) == Ok(Some(b))
  }

  lemma BoundScopes(r: Registry, q: Request, b: Exact)
    requires Linked(r) && Bound(r, q, b) && Requested(q.scope.value) != []
    ensures SchemaAccepts(b.scopes) && Members(b.scopes) == Members(Requested(q.scope.value))
    ensures ScopeSet(b.scopes) == ScopeSet(Requested(q.scope.value))
    ensures b.subject == q.account.value && b.client == q.client.value && b.resource == LoaderResource(q.resource).value
  {
    var requested := Requested(q.scope.value);
    KeepAll(Known, Words(q.scope.value));
    DistinctKeepsMembers(requested);
    assert requested[0] in Members(Distinct(requested));
    forall i | 0 <= i < |Distinct(requested)| ensures Known(Distinct(requested)[i]) {
      assert Distinct(requested)[i] in Members(Distinct(requested));
    }
    InOrderIsAccepted(Distinct(requested));
    SameDecision(b.scopes, requested);
  }

  /** After its lookup, the loader's answer is that of its last checks. */
  lemma LoadedGrant(r: Registry, store: map<string, ProviderGrant>, active: set<string>, exact: string -> bool,
                    q: Request, b: Exact)
    requires Linked(r) && Servable(q, active, exact) && Bound(r, q, b) && b.grantId in store
    requires q.submitted.Some? ==> q.submitted.value == b.grantId
    ensures LoadGrant(r, store, active, exact, q) == Ok(Some(store[b.grantId])) <==> CheckGrant(store[b.grantId], b).Ok?
  {
    BoundScopes(r, q, b);
  }

  /**
    What the interaction handler does with the session's grant, if any: the plan, the saved grant,
    the next request.
  */
  ghost predicate Consents(b: Exact, q: Request, existing: Option<string>, start: ProviderGrant, saved: ProviderGrant)
    requires q.scope.Some? && InteractionScopes(q.scope).Some?
  {
    var plan := UpdatePlan(existing, b.grantId, b.resource, InteractionScopes(q.scope).value,
                           Reported(start, q.scope.value, q.claims, b.resource));
    plan.Ok? && saved == Updated(start, plan.value)
  }

  /**
    Consent, then load. If the provider reports requested minus granted, then the
    plan is made, and applied to a new grant or to the session's grant it gives a
    grant that the loader accepts for the same request exactly when the session's
    grant, if there is one, was exactly bound; and its resource scopes are the
    approved ones.
  */
  lemma ConsentThenLoad(r: Registry, store: map<string, ProviderGrant>, active: set<string>, exact: string -> bool,
                        q: Request, b: Exact, existing: Option<string>)
    returns (saved: ProviderGrant, answer: Result<Option<ProviderGrant>>)
    requires Linked(r) && Servable(q, active, exact) && Bound(r, q, b) && All(IsSub, q.claims)
    requires existing.Some? ==> existing.value == b.grantId && b.grantId in store
    ensures InteractionScopes(q.scope).Some?
    ensures answer == LoadGrant(r, store[b.grantId := saved], active, exact,
                                q.(submitted := if existing.None? then Some(b.grantId) else None))
    ensures var start := if existing.None? then NewGrant(b) else store[b.grantId];
      && Consents(b, q, existing, start, saved)
      && (existing.None? ==> ExactlyBound(start, b))
      && (answer == Ok(Some(saved)) <==> ExactlyBound(start, b))
      && (ExactlyBound(start, b) ==>
            saved.resources.Keys == {b.resource}
              && Members(Words(ResourceScope(saved, b.resource))) == Members(b.scopes))
  {
    var start := if existing.None? then NewGrant(b) else store[b.grantId];
    BoundScopes(r, q, b);
    SessionScopes(q.scope.value);
    var scopes := InteractionScopes(q.scope).value;
    PlanIsMade(existing, b.grantId, start, q.scope.value, q.claims, b.resource, scopes);
    var plan := UpdatePlan(existing, b.grantId, b.resource, scopes,
                           Reported(start, q.scope.value, q.claims, b.resource)).value;
    saved := Updated(start, plan);
    PlannedGrant(start, plan, q.scope.value, q.claims, b);
    CheckDecides(saved, b);
    var next := q.(submitted := if existing.None? then Some(b.grantId) else None);
    LoadedGrant(r, store[b.grantId := saved], active, exact, next, b);
    answer := LoadGrant(r, store[b.grantId := saved], active, exact, next);
  }

  lemma SessionScopes(scope: string)
    requires Requested(scope) != []
    ensures InteractionScopes(Some(scope)).Some?
    ensures Members(InteractionScopes(Some(scope)).value) == Members(Requested(scope))
  {
    KeepAll(Known, Words(scope));
    InOrderIsAccepted(Requested(scope));
  }

  // ------------------------------------------- a session grant that is refused

  lemma SingleWord(w: string)
    requires Known(w)
    ensures Words(w) == [w] && Requested(w) == [w]
  {
    KnownIsNamed(w);
    var one := [w];
    JoinRoundTrip(one);
    assert one[..0] == [];
  }

  lemma SingleSorted(one: seq<string>)
    requires |one| == 1 && Known(one[0])
    ensures Distinct(one) == one && SchemaAccepts(one) && InOrder(one) == one
  {
    assert one[..0] == [];
    NoRepeatsCount(one);
    InOrderIsAccepted(one);
    AcceptedIsUnique(InOrder(one), one);
  }

  /** A registry that holds one active consent for one scope. */
  function OneConsentRegistry(b: Exact, site: SiteRef, jwk: Jwk): Registry {
    Registry(map[site := Site(b.resource, SiteActive, jwk)],
             map[b.grantId := Grant(Terms(site, b.subject, b.client, b.scopes, Sha(""), 0, 0), Active)], map[], [])
  }

  function RequestFor(b: Exact, scope: string): Request {
    Request(Some(b.subject), Some(b.client), One(b.resource), Some(scope), [], None)
  }

  predicate AnyResource(resource: string) {
    true
  }

  lemma OneConsentIsResolved(b: Exact, site: SiteRef, jwk: Jwk)
    requires SchemaAccepts(b.scopes) && InOrder(b.scopes) == b.scopes
    ensures Linked(OneConsentRegistry(b, site, jwk))
    ensures ResolveExact(OneConsentRegistry(b, site, jwk), b.subject, b.client, b.resource, b.scopes) == Ok(Some(b))
  {
    var r := OneConsentRegistry(b, site, jwk);
    var rows := set id | id in r.grants && Fits(r, id, b.subject, b.client, b.resource)
      && r.grants[id].terms.scopes == b.scopes;
    assert rows == {b.grantId};
  }

  lemma OneConsentIsBound(b: Exact, site: SiteRef, jwk: Jwk, w: string)
    requires Known(w) && b.scopes == [w]
    ensures Linked(OneConsentRegistry(b, site, jwk)) && Bound(OneConsentRegistry(b, site, jwk), RequestFor(b, w), b)
    ensures Servable(RequestFor(b, w), {b.subject}, AnyResource)
  {
    SingleWord(w);
    SingleSorted(b.scopes);
    OneConsentIsResolved(b, site, jwk);
  }

  lemma OnlyGrantSaved(r: Registry, active: set<string>, exact: string -> bool, q: Request, id: string,
                       start: ProviderGrant, saved: ProviderGrant)
    requires Linked(r) && q.submitted.None?
    ensures LoadGrant(r, map[id := start][id := saved], active, exact, q.(submitted := None))
         == LoadGrant(r, map[id := saved], active, exact, q)
  {
    assert map[id := start][id := saved] == map[id := saved];
    assert q.(submitted := None) == q;
  }

  /** Consent on a session's grant that is bound to anything else saves a grant which the next load refuses. */
  lemma ForeignStartIsRefused(r: Registry, active: set<string>, exact: string -> bool, start: ProviderGrant, q: Request,
                              b: Exact)
    returns (saved: ProviderGrant, answer: Result<Option<ProviderGrant>>)
    requires Linked(r) && Servable(q, active, exact) && Bound(r, q, b) && All(IsSub, q.claims)
    requires !ExactlyBound(start, b)
    ensures InteractionScopes(q.scope).Some? && Consents(b, q, Some(b.grantId), start, saved)
    ensures answer == LoadGrant(r, map[b.grantId := start][b.grantId := saved], active, exact, q.(submitted := None))
    ensures answer != Ok(Some(saved))
  {
    saved, answer := ConsentThenLoad(r, map[b.grantId := start], active, exact, q, b, Some(b.grantId));
  }

  /**
    The other half of the condition is real: a session grant for this consent that
    also carries another resource is saved by the interaction, and the next load of
    the same request refuses it.
  */
  lemma SecondResourceIsRefused(b: Exact, site: SiteRef, jwk: Jwk, w: string, other: string)
    requires Known(w) && b.scopes == [w] && other != b.resource
    ensures var r, q := OneConsentRegistry(b, site, jwk), RequestFor(b, w);
      var start := NewGrant(b).(resources := map[other := w]);
      && Linked(r) && InteractionScopes(q.scope).Some?
      && exists saved :: Consents(b, q, Some(b.grantId), start, saved)
           && LoadGrant(r, map[b.grantId := saved], {b.subject}, AnyResource, q) != Ok(Some(saved))
  {
    var r, q := OneConsentRegistry(b, site, jwk), RequestFor(b, w);
    var start := NewGrant(b).(resources := map[other := w]);
    OneConsentIsBound(b, site, jwk, w);
    assert other in start.resources.Keys;
    assert !ExactlyBound(start, b);
    var saved, answer := ForeignStartIsRefused(r, {b.subject}, AnyResource, start, q, b);
    OnlyGrantSaved(r, {b.subject}, AnyResource, q, b.grantId, start, saved);
  }
}
