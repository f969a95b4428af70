/**
  Refresh-token replay over whole runs: the artifact adapter, the grant
  repositories and the claims resolver interleave freely, one committed
  transaction at a time.
*/
module RefreshReplay {
  import opened Prelude
  import opened GrantRegistry
  import opened SecretArtifacts

  datatype World = World(plain: map<Raw, Row>, registry: Registry)

  datatype Op =
    | Upsert(r: Raw, payload: Payload, expiresIn: Option<int>, now: int)
    | Consume(r: Raw, limiterAllows: bool, now: int)
    | Destroy(r: Raw)
    | Find(r: Raw, now: int)
    | RevokeGrant(model: string, grantId: string, reason: string, now: int)
    | Platform(op: GrantRegistry.Op)

  function Next(w: World, op: Op): World
    requires Linked(w.registry)
  {
    match op
    case Upsert(r, payload, expiresIn, now) =>
      if ValidValue(r.value) then w.(plain := w.plain[r := NewRow(payload, expiresIn, now)]) else w
    case Consume(r, limiterAllows, now) =>
      var c := Judge(w.plain, r, limiterAllows, now);
      World(AfterConsume(w.plain, w.registry, r, c, now),
            if c.Replay? then RevokeRefreshGrant(w.registry, c.grantId, "refresh_replay") else w.registry)
    case Destroy(r) => w.(plain := w.plain - {r})
    case Find(_, _) => w
    case RevokeGrant(model, grantId, reason, now) =>
      World(DeleteGrant(w.plain, grantId),
            if model == REFRESH then RevokeRefreshGrant(w.registry, grantId, reason) else w.registry)
    case Platform(op) => w.(registry := GrantRegistry.Next(w.registry, op))
  }

  lemma NextLinked(w: World, op: Op)
    requires Linked(w.registry)
    ensures Advances(w.registry, Next(w, op).registry)
  {
    match op
    case Consume(r, limiterAllows, now) =>
      var c := Judge(w.plain, r, limiterAllows, now);
      if c.Replay? {
        NextAdvances(w.registry, RevokeRefresh(c.grantId, "refresh_replay"));
      }
    case RevokeGrant(_, grantId, reason, _) => NextAdvances(w.registry, RevokeRefresh(grantId, reason));
    case Platform(op) => NextAdvances(w.registry, op);
    case _ =>
  }

  ghost function Run(w: World, ops: seq<Op>): (v: World)
    requires Linked(w.registry)
    ensures Linked(v.registry)
  {
    if ops == [] then w
    else
      var v := Run(w, ops[..|ops| - 1]);
      NextLinked(v, ops[|ops| - 1]);
      Next(v, ops[|ops| - 1])
  }

  // ------------------------------------------------------------- single use

  /** Random token values never repeat. */
  ghost predicate FreshValues(ops: seq<Op>) {
    forall i, j :: 0 <= i < j < |ops| && ops[i].Upsert? && ops[j].Upsert? ==> ops[i].r != ops[j].r
  }

  ghost predicate Issued(ops: seq<Op>, r: Raw) {
    exists i :: 0 <= i < |ops| && ops[i].Upsert? && ops[i].r == r
  }

  /** How many times a value has been consumed successfully. */
  ghost function Uses(w: World, ops: seq<Op>, r: Raw): nat
    requires Linked(w.registry)
  {
    if ops == [] then 0
    else
      var k := |ops| - 1;
      var used := ops[k].Consume? && ops[k].r == r
        && Judge(Run(w, ops[..k]).plain, r, ops[k].limiterAllows, ops[k].now).Consumed?;
      Uses(w, ops[..k], r) + (if used then 1 else 0)
  }

  ghost predicate UseRecorded(plain: map<Raw, Row>, r: Raw, uses: nat, issued: bool) {
    && uses <= 1
    && (uses == 1 ==> issued)
    && (r in plain ==> issued && (uses == 1 <==> plain[r].consumedAt.Some?))
    && (r in plain && r.model == REFRESH && plain[r].consumedAt.Some? ==> plain[r].payload.grantId.Some?)
  }

  lemma {:induction false} UsesRecorded(registry: Registry, ops: seq<Op>, r: Raw)
    requires Linked(registry) && FreshValues(ops)
    ensures UseRecorded(Run(World(map[], registry), ops).plain, r, Uses(World(map[], registry), ops, r), Issued(ops, r))
  {
    if ops != [] {
      var k := |ops| - 1;
      UsesRecorded(registry, ops[..k], r);
      assert Issued(ops[..k], r) ==> Issued(ops, r) by {
        if Issued(ops[..k], r) {
          var i :| 0 <= i < k && ops[..k][i].Upsert? && ops[..k][i].r == r;
          assert ops[i].r == r;
        }
      }
      if ops[k].Upsert? && ops[k].r == r {
        assert !Issued(ops[..k], r);
      }
    }
  }

  /** Every value is consumed successfully at most once, however the calls interleave. */
  lemma SingleUse(registry: Registry, ops: seq<Op>, r: Raw)
    requires Linked(registry) && FreshValues(ops)
    ensures Uses(World(map[], registry), ops, r) <= 1
  {
    UsesRecorded(registry, ops, r);
  }

  // ---------------------------------------------------------------- replay

  lemma {:induction false} RunKeepsEvents(w: World, ops: seq<Op>)
    requires Linked(w.registry) && EventsSound(w.registry)
    ensures EventsSound(Run(w, ops).registry)
  {
    if ops != [] {
      RunKeepsEvents(w, ops[..|ops| - 1]);
      StepKeepsEvents(Run(w, ops[..|ops| - 1]), ops[|ops| - 1]);
    }
  }

  lemma StepKeepsEvents(w: World, op: Op)
    requires Linked(w.registry) && EventsSound(w.registry)
    ensures EventsSound(Next(w, op).registry)
    ensures forall g :: g in w.registry.grants && !Live(w.registry.grants[g]) ==>
      EventsOf(Next(w, op).registry.events, g) == EventsOf(w.registry.events, g)
  {
    match op
    case Consume(r, limiterAllows, now) =>
      var c := Judge(w.plain, r, limiterAllows, now);
      if c.Replay? {
        RevokeKeepsEvents(w.registry, c.grantId, "refresh_replay");
      }
    case RevokeGrant(_, grantId, reason, _) => RevokeKeepsEvents(w.registry, grantId, reason);
    case Platform(op) => NextKeepsEvents(w.registry, op);
    case _ =>
  }

  /** No refresh token of the grant is usable from now on. */
  ghost predicate FamilyDead(plain: map<Raw, Row>, grantId: string, now: int) {
    forall x, later ::
      (x in plain && x.model == REFRESH && plain[x].payload.grantId == Some(grantId) && now <= later) ==>
        !Usable(plain[x], later)
  }

  /** What every later use of a consumed refresh value does. */
  ghost predicate ReplayHandled(before: World, r: Raw, c: Consumption, after: World, now: int)
  {
    || (c.Missing? && r !in before.plain && after == before)
    || (&& c.Replay?
        && r in before.plain && before.plain[r].payload.grantId == Some(c.grantId)
        && (c.grantId in before.registry.grants ==>
              && c.grantId in after.registry.grants
              && !Live(after.registry.grants[c.grantId])
              && EventsOf(after.registry.events, c.grantId) <= 1
              && (Live(before.registry.grants[c.grantId]) ==> EventsOf(after.registry.events, c.grantId) == 1)
              && (!Live(before.registry.grants[c.grantId]) ==> after.registry == before.registry)
              && FamilyDead(after.plain, c.grantId, now))
        && (c.grantId !in before.registry.grants ==> after == before))
  }

  /**
    After its one successful use, each further use of a refresh value either finds
    the row gone, or no such grant, and changes nothing, or leaves its grant
    revoked and its whole family unusable; the first such replay of a live grant logs one event, and
    repeated replays log no more.
  */
  lemma ReuseIsHandled(registry: Registry, ops: seq<Op>, r: Raw, limiterAllows: bool, now: int)
    requires Linked(registry) && EventsSound(registry) && FreshValues(ops) && r.model == REFRESH
    requires Uses(World(map[], registry), ops, r) == 1
    ensures var before := Run(World(map[], registry), ops);
      ReplayHandled(before, r, Judge(before.plain, r, limiterAllows, now), Next(before, Consume(r, limiterAllows, now)),
                    now)
  {
    var w := World(map[], registry);
    UsesRecorded(registry, ops, r);
    RunKeepsEvents(w, ops);
    var before := Run(w, ops);
    var c := Judge(before.plain, r, limiterAllows, now);
    if c.Replay? {
      ReplayOutcome(before.registry, c.grantId);
    }
  }

  lemma ReplayOutcome(r: Registry, id: string)
    requires Linked(r) && EventsSound(r)
    ensures var s := RevokeRefreshGrant(r, id, "refresh_replay");
      id in r.grants ==>
        && id in s.grants && !Live(s.grants[id])
        && EventsOf(s.events, id) <= 1
        && (Live(r.grants[id]) ==> EventsOf(s.events, id) == 1)
        && (!Live(r.grants[id]) ==> s == r)
  {
    RevokeKeepsEvents(r, id, "refresh_replay");
    if id in r.grants && Live(r.grants[id]) {
      AppendKeepsNumbering(Retire(r, id), r.grants[id].terms.site, GrantEvent, Some(id), "refresh_replay");
      assert EventsOf(r.events, id) == 0;
    }
  }

  // ------------------------------------------------------ revoked for good

  /** A revoked grant stays revoked and logs no further event, whatever happens next. */
  lemma {:induction false} RevokedForever(w: World, ops: seq<Op>, id: string)
    requires Linked(w.registry) && EventsSound(w.registry)
    requires id in w.registry.grants && !Live(w.registry.grants[id])
    ensures EventsSound(Run(w, ops).registry)
    ensures id in Run(w, ops).registry.grants && !Live(Run(w, ops).registry.grants[id])
    ensures EventsOf(Run(w, ops).registry.events, id) == EventsOf(w.registry.events, id)
  {
    if ops != [] {
      var k := |ops| - 1;
      RevokedForever(w, ops[..k], id);
      NextLinked(Run(w, ops[..k]), ops[k]);
      StepKeepsEvents(Run(w, ops[..k]), ops[k]);
    }
  }

  /** The gate every access token passes: its claims, or a refusal. */
  ghost function ExtraTokenClaims(r: Registry, accountId: Option<string>, b: Binding): Result<string>
    requires Linked(r)
  {
    if accountId.None? then Err("access_denied")
    else
      var claims := ResolveClaims(r, accountId.value, b);
      if claims.None? then Err("access_denied") else Ok(claims.value)
  }

  lemma ClaimsAreActive(r: Registry, accountId: Option<string>, b: Binding)
    requires Linked(r)
    ensures var claims := ExtraTokenClaims(r, accountId, b);
      claims.Ok? ==> Resolves(r, accountId.value, b, claims.value)
  {
    if accountId.Some? {
      var fitting := set id | id in r.grants && Resolves(r, accountId.value, b, id);
      if |fitting| == 1 {
        var id :| id in fitting && ResolveClaims(r, accountId.value, b) == Some(id);
      }
    }
  }

  /**
    Once a replay or a revocation has hit grant g, no access token ever carries g
    again, bound or unbound, even if a racing rotation stores another refresh
    token for g, and one bound to g is refused.
  */
  lemma NoTokenAfterRevocation(w: World, trigger: Op, ops: seq<Op>, id: string, accountId: Option<string>, b: Binding)
    requires Linked(w.registry) && EventsSound(w.registry) && id in w.registry.grants
    requires (trigger.RevokeGrant? && trigger.model == REFRESH && trigger.grantId == id)
          || (trigger.Consume? && Judge(w.plain, trigger.r, trigger.limiterAllows, trigger.now) == Replay(id))
    ensures Linked(Next(w, trigger).registry)
    ensures var claims := ExtraTokenClaims(Run(Next(w, trigger), ops).registry, accountId, b);
      && (claims.Ok? ==> claims.value != id)
      && (b.grantId == Some(id) ==> claims.Err?)
  {
    NextLinked(w, trigger);
    StepKeepsEvents(w, trigger);
    RevokedForever(Next(w, trigger), ops, id);
    ClaimsAreActive(Run(Next(w, trigger), ops).registry, accountId, b);
  }
}
