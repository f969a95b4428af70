/** What holds over whole runs of the console handoff, for every interleaving and every clock reading. */
module ConsoleRuns {
  import opened Prelude
  import opened BrowserTransactions
  import R = GrantRegistry
  import opened ConsoleAuth

  /** A successful exchange: what was presented, what it rested on, and the session it opened. */
  datatype Exchange = Exchange(
    request: string, secret: string, code: string, token: string, authority: Authority, at: int, session: Session)

  /**
    The tables, and a history: each request's browser secret, each request's latest
    code, all exchanges, and the sessions that were revoked or logged out.
  */
  datatype World = World(
    c: Console, secrets: map<string, string>, latest: map<string, string>, exchanges: seq<Exchange>,
    revoked: set<R.Digest>)

  datatype Op =
    | Create(id: string, secret: string, path: string, doomed: set<string>, now: int)
    | Authorize(id: string, session: string, account: string, authExpiresAt: int, code: string, now: int)
    | Redeem(id: string, secret: string, code: string, token: string, now: int)
    | StartLogout(hash: R.Digest, id: string, noise: R.Digest, path: string, now: int)
    | FinishLogout(id: string, session: string, consume: bool, now: int)
    | Revoke(hash: R.Digest, now: int)
    | Authenticate(session: string, authority: Authority, now: int)
    | Drop(session: string, now: int)
    | LinkUser(user: string, account: string, now: int)
    | SetAccount(account: string, active: bool, now: int)

  /** Random request ids and tokens never come twice; a purge deletes what it may. `purging` switches purges off. */
  ghost predicate Possible(w: World, op: Op, purging: bool) {
    match op
    case Create(id, _, _, doomed, now) =>
      id !in w.secrets && (purging ==> PurgeAllowed(w.c.transactions, Life, doomed, now))
    case StartLogout(_, id, _, _, _) => id !in w.secrets
    case Redeem(_, _, _, token, _) => forall x :: x in w.exchanges ==> x.token != token
    case _ => true
  }

  function Redeemed(w: World, op: Op): Exchange
    requires op.Redeem? && ExchangeLogin(w.c, op.id, op.secret, op.code, op.token, op.now).1.Ok?
  {
    var session := ExchangeLogin(w.c, op.id, op.secret, op.code, op.token, op.now).0.sessions[R.Sha(op.token)];
    Exchange(op.id, op.secret, op.code, op.token, w.c.authority[session.authSession], op.now, session)
  }

  function Step(w: World, op: Op, purging: bool): World {
    match op
    case Create(id, secret, path, doomed, now) =>
      var (c, done) := CreateLogin(w.c, id, secret, path, if purging then doomed else {}, now);
      if done.Ok? then w.(c := c, secrets := w.secrets[id := secret]) else w
    case Authorize(id, session, account, authExpiresAt, code, now) =>
      var (c, done) := AuthorizeLogin(w.c, id, session, account, authExpiresAt, code, now);
      if done.Ok? then w.(c := c, latest := w.latest[id := code]) else w
    case Redeem(id, secret, code, token, now) =>
      var (c, done) := ExchangeLogin(w.c, id, secret, code, token, now);
      if done.Ok? then w.(c := c, exchanges := w.exchanges + [Redeemed(w, op)]) else w
    case StartLogout(hash, id, noise, path, now) =>
      var (c, done) := BeginLogout(w.c, hash, id, noise, path, now);
      if done.Ok? then w.(c := c, secrets := w.secrets[id := ""], revoked := w.revoked + {hash}) else w
    case FinishLogout(id, session, consume, now) => w.(c := ValidateLogout(w.c, id, session, consume, now).0)
    case Revoke(hash, now) =>
      var (c, done) := RevokeSession(w.c, hash, now);
      if done.Ok? && hash in w.c.sessions then w.(c := c, revoked := w.revoked + {hash}) else w
    case Authenticate(session, authority, _) => w.(c := w.c.(authority := w.c.authority[session := authority]))
    case Drop(session, _) => w.(c := DropAuthority(w.c, session))
    case LinkUser(user, account, _) => w.(c := w.c.(links := w.c.links[user := account]))
    case SetAccount(account, active, _) => w.(c := w.c.(accounts := w.c.accounts[account := active]))
  }

  ghost function Next(w: World, op: Op, purging: bool): World {
    if Possible(w, op, purging) then Step(w, op, purging) else w
  }

  ghost function Run(w: World, ops: seq<Op>, purging: bool): World {
    if ops == [] then w else Next(Run(w, ops[..|ops| - 1], purging), ops[|ops| - 1], purging)
  }

  function Initial(authority: map<string, Authority>, links: map<string, string>, accounts: map<string, bool>): World {
    World(Console(map[], map[], authority, links, accounts), map[], map[], [], {})
  }

  // ---------------------------------------------------- transactions advance

  /** Bindings are written once, the deadline only shrinks, and consumption is final. */
  predicate RowAdvances(t: Transaction, u: Transaction) {
    && u.purpose == t.purpose && u.browserHash == t.browserHash && u.returnPath == t.returnPath
      && u.createdAt == t.createdAt
    && (t.session.Some? ==> u.session == t.session) && (t.account.Some? ==> u.account == t.account)
    && u.expiresAt <= t.expiresAt
    && (t.consumedAt.Some? ==> u == t)
  }

  /** Every transaction of `d` that is not `created` was one of `c` and has only advanced. */
  ghost predicate Advance(c: Console, d: Console, created: Option<string>) {
    forall id :: id in d.transactions && created != Some(id) ==>
      id in c.transactions && RowAdvances(c.transactions[id], d.transactions[id])
  }

  lemma AuthorizeAdvances(c: Console, id: string, session: string, account: string, authExpiresAt: int, code: string,
                          now: int)
    ensures Advance(c, AuthorizeLogin(c, id, session, account, authExpiresAt, code, now).0, None)
  {
  }

  lemma ExchangeAdvances(c: Console, id: string, secret: string, code: string, token: string, now: int)
    ensures Advance(c, ExchangeLogin(c, id, secret, code, token, now).0, None)
  {
  }

  lemma StartLogoutAdvances(c: Console, hash: R.Digest, id: string, noise: R.Digest, path: string, now: int)
    ensures Advance(c, BeginLogout(c, hash, id, noise, path, now).0, Some(id))
  {
  }

  lemma FinishLogoutAdvances(c: Console, id: string, session: string, consume: bool, now: int)
    ensures Advance(c, ValidateLogout(c, id, session, consume, now).0, None)
  {
  }

  lemma StepAdvances(w: World, op: Op, purging: bool, id: string)
    requires id in w.secrets && id in Next(w, op, purging).c.transactions
    ensures id in w.c.transactions && RowAdvances(w.c.transactions[id], Next(w, op, purging).c.transactions[id])
  {
    match op
    case Authorize(x, session, account, authExpiresAt, code, now) =>
      AuthorizeAdvances(w.c, x, session, account, authExpiresAt, code, now);
    case Redeem(x, secret, code, token, now) => ExchangeAdvances(w.c, x, secret, code, token, now);
    case StartLogout(hash, x, noise, path, now) => StartLogoutAdvances(w.c, hash, x, noise, path, now);
    case FinishLogout(x, session, consume, now) => FinishLogoutAdvances(w.c, x, session, consume, now);
    case _ =>
  }

  lemma StepKeepsSecrets(w: World, op: Op, purging: bool, id: string)
    requires id in w.secrets
    ensures id in Next(w, op, purging).secrets && Next(w, op, purging).secrets[id] == w.secrets[id]
  {
  }

  /** Over any run of interleaved calls a transaction that is still there has only advanced. */
  lemma {:induction false} TransactionsAdvance(w: World, ops: seq<Op>, purging: bool, id: string)
    requires id in w.secrets
    ensures id in Run(w, ops, purging).secrets && Run(w, ops, purging).secrets[id] == w.secrets[id]
    ensures id in Run(w, ops, purging).c.transactions ==>
      id in w.c.transactions && RowAdvances(w.c.transactions[id], Run(w, ops, purging).c.transactions[id])
  {
    if ops != [] {
      var before := Run(w, ops[..|ops| - 1], purging);
      TransactionsAdvance(w, ops[..|ops| - 1], purging, id);
      StepKeepsSecrets(before, ops[|ops| - 1], purging, id);
      if id in Run(w, ops, purging).c.transactions {
        StepAdvances(before, ops[|ops| - 1], purging, id);
      }
    }
  }

  // ---------------------------------------------------------- the invariant

  /** A login's row holds the hash of its browser's secret and of its latest code. */
  ghost predicate RowSound(w: World, id: string, t: Transaction) {
    && id in w.secrets
    && (t.purpose.Login? ==>
          && t.browserHash == R.Sha(w.secrets[id])
          && (t.codeHash.Some? ==> id in w.latest && t.codeHash.value == R.Sha(w.latest[id]))
          && (t.codeHash.Some? <==> t.session.Some?) && (t.session.Some? <==> t.account.Some?))
  }

  ghost predicate RowsSound(w: World) {
    forall id :: id in w.c.transactions ==> RowSound(w, id, w.c.transactions[id])
  }

  /** An exchange's request is used up: its row is consumed, if it is still there. */
  ghost predicate UsedUp(w: World, x: Exchange) {
    && x.request in w.secrets
    && (x.request in w.c.transactions ==> w.c.transactions[x.request].consumedAt.Some?)
  }

  ghost predicate ExchangesSound(w: World) {
    && (forall x :: x in w.exchanges ==> UsedUp(w, x))
    && (forall i, j :: 0 <= i < j < |w.exchanges| ==> w.exchanges[i].request != w.exchanges[j].request)
  }

  /** The session is the one the exchange opened, and is revoked exactly if it was revoked or logged out. */
  ghost predicate Opens(w: World, x: Exchange, h: R.Digest) {
    && h in w.c.sessions && x in w.exchanges && R.Sha(x.token) == h
    && x.session.(revokedAt := w.c.sessions[h].revokedAt) == w.c.sessions[h]
    && (h in w.revoked <==> w.c.sessions[h].revokedAt.Some?)
  }

  ghost predicate SessionsSound(w: World) {
    && (forall h :: h in w.c.sessions ==> exists x :: Opens(w, x, h))
    && (forall h :: h in w.revoked ==> exists x :: x in w.exchanges && R.Sha(x.token) == h)
  }

  /** What an exchange rests on. */
  ghost predicate Earned(w: World, x: Exchange) {
    && x.request in w.secrets && x.secret == w.secrets[x.request]
    && x.at < x.authority.expiresAt
    && x.session.createdAt == x.at && x.session.revokedAt.None?
    && x.session.expiresAt == Min(x.authority.expiresAt, x.at + SESSION_TTL)
    && x.session.authenticatedAt == x.authority.createdAt <= x.at
  }

  ghost predicate AllEarned(w: World) {
    forall x :: x in w.exchanges ==> Earned(w, x)
  }

  ghost predicate Inv(w: World) {
    RowsSound(w) && ExchangesSound(w) && SessionsSound(w) && AllEarned(w)
  }

  lemma StepKeepsRows(w: World, op: Op, purging: bool)
    requires RowsSound(w)
    ensures RowsSound(Next(w, op, purging))
  {
  }

  lemma StepKeepsExchanges(w: World, op: Op, purging: bool)
    requires RowsSound(w) && ExchangesSound(w)
    ensures ExchangesSound(Next(w, op, purging))
  {
    var v := Next(w, op, purging);
    forall x | x in v.exchanges ensures UsedUp(v, x) {
      if x in w.exchanges {
        assert UsedUp(w, x);
        StepKeepsSecrets(w, op, purging, x.request);
        if x.request in v.c.transactions {
          StepAdvances(w, op, purging, x.request);
        }
      }
    }
    if |v.exchanges| > |w.exchanges| {
      forall i | 0 <= i < |w.exchanges| ensures w.exchanges[i].request != op.id {
        assert w.exchanges[i] in w.exchanges && UsedUp(w, w.exchanges[i]);
      }
    }
  }

  lemma StepKeepsOpens(w: World, op: Op, purging: bool, x: Exchange, h: R.Digest)
    requires Opens(w, x, h) && h in Next(w, op, purging).c.sessions
    ensures Opens(Next(w, op, purging), x, h)
  {
  }

  /** Only an exchange opens a session, and under a token that was never used. */
  lemma NewSessionIsRedeemed(w: World, op: Op, purging: bool, h: R.Digest)
    requires h !in w.c.sessions && h in Next(w, op, purging).c.sessions
    ensures op.Redeem? && ExchangeLogin(w.c, op.id, op.secret, op.code, op.token, op.now).1.Ok? && h == R.Sha(op.token)
    ensures forall x :: x in w.exchanges ==> x.token != op.token
  {
    assert op.Redeem?;
  }

  lemma FreshTokenIsUnrevoked(w: World, token: string)
    requires SessionsSound(w) && forall x :: x in w.exchanges ==> x.token != token
    ensures R.Sha(token) !in w.revoked
  {
    assert forall x :: x in w.exchanges ==> R.Sha(x.token) != R.Sha(token);
  }

  lemma StepKeepsOpened(w: World, op: Op, purging: bool, h: R.Digest)
    requires SessionsSound(w) && h in Next(w, op, purging).c.sessions
    ensures exists x :: Opens(Next(w, op, purging), x, h)
  {
    if h in w.c.sessions {
      var x :| Opens(w, x, h);
      StepKeepsOpens(w, op, purging, x, h);
    } else {
      NewSessionIsRedeemed(w, op, purging, h);
      FreshTokenIsUnrevoked(w, op.token);
      assert Opens(Next(w, op, purging), Redeemed(w, op), h);
    }
  }

  lemma StepKeepsRevoked(w: World, op: Op, purging: bool, h: R.Digest)
    requires SessionsSound(w) && h in Next(w, op, purging).revoked
    ensures exists x :: x in Next(w, op, purging).exchanges && R.Sha(x.token) == h
  {
    var v := Next(w, op, purging);
    if h in w.revoked {
      var x :| x in w.exchanges && R.Sha(x.token) == h;
      assert x in v.exchanges;
    } else {
      var x :| Opens(w, x, h);
      assert x in v.exchanges;
    }
  }

  lemma StepKeepsSessions(w: World, op: Op, purging: bool)
    requires SessionsSound(w)
    ensures SessionsSound(Next(w, op, purging))
  {
    forall h | h in Next(w, op, purging).c.sessions ensures exists x :: Opens(Next(w, op, purging), x, h) {
      StepKeepsOpened(w, op, purging, h);
    }
    forall h | h in Next(w, op, purging).revoked
      ensures exists x :: x in Next(w, op, purging).exchanges && R.Sha(x.token) == h
    {
      StepKeepsRevoked(w, op, purging, h);
    }
  }

  lemma StepKeepsEarned(w: World, op: Op, purging: bool)
    requires RowsSound(w) && AllEarned(w)
    ensures AllEarned(Next(w, op, purging))
  {
    var v := Next(w, op, purging);
    forall x | x in v.exchanges ensures Earned(v, x) {
      if x in w.exchanges {
        assert Earned(w, x);
        StepKeepsSecrets(w, op, purging, x.request);
      } else {
        assert RowSound(w, op.id, w.c.transactions[op.id]);
      }
    }
  }

  lemma {:induction false} RunKeepsInv(w: World, ops: seq<Op>, purging: bool)
    requires Inv(w)
    ensures Inv(Run(w, ops, purging))
  {
    if ops != [] {
      var before, op := Run(w, ops[..|ops| - 1], purging), ops[|ops| - 1];
      RunKeepsInv(w, ops[..|ops| - 1], purging);
      StepKeepsRows(before, op, purging);
      StepKeepsExchanges(before, op, purging);
      StepKeepsSessions(before, op, purging);
      StepKeepsEarned(before, op, purging);
    }
  }

  // ----------------------------------------------------------- main results

  /** The world after some run from empty tables of the store. */
  ghost predicate Reachable(w: World) {
    exists a, l, s, ops :: w == Run(Initial(a, l, s), ops, true)
  }

  lemma ReachableIsSound(w: World)
    requires Reachable(w)
    ensures Inv(w)
  {
    var a, l, s, ops :| w == Run(Initial(a, l, s), ops, true);
    RunKeepsInv(Initial(a, l, s), ops, true);
  }

  /** Each login request yields at most one session. */
  lemma OneSessionPerLogin(w: World, i: nat, j: nat)
    requires Reachable(w) && i < j < |w.exchanges|
    ensures w.exchanges[i].request != w.exchanges[j].request
  {
    ReachableIsSound(w);
  }

  /**
    An exchange succeeds only for the request's browser secret and its latest code, and for the
    account it is bound to.
  */
  lemma ExchangeIsEarned(w: World, id: string, secret: string, code: string, token: string, now: int)
    requires Reachable(w) && ExchangeLogin(w.c, id, secret, code, token, now).1.Ok?
    ensures var row := w.c.transactions[id];
      var answer := ExchangeLogin(w.c, id, secret, code, token, now).1.value;
      && id in w.secrets && secret == w.secrets[id] && id in w.latest && code == w.latest[id]
      && answer.account == row.account.value && answer.returnPath == row.returnPath
      && AuthorityFor(w.c, row.session.value, row.account.value, now).Some?
      && answer.expiresAt <= now + SESSION_TTL && answer.expiresAt <= w.c.authority[row.session.value].expiresAt
      && now < row.expiresAt
  {
    ReachableIsSound(w);
    assert RowSound(w, id, w.c.transactions[id]);
  }

  /**
    A session that resolves was opened by an exchange for its account within the
    last twelve hours, was never revoked or logged out, and rests on an account
    session that is live now and was live then and on an account that is active.
  */
  lemma ResolvedSessionIsLive(w: World, h: R.Digest, now: int) returns (x: Exchange)
    requires Reachable(w) && ResolveSession(w.c, h, now).Some?
    ensures var (account, authenticationTime) := ResolveSession(w.c, h, now).value;
      && x in w.exchanges && R.Sha(x.token) == h && x.session.account == account && Earned(w, x)
      && now < x.at + SESSION_TTL && now < x.authority.expiresAt
      && h !in w.revoked
      && x.session.authSession in w.c.authority && now < w.c.authority[x.session.authSession].expiresAt
      && account in w.c.accounts && w.c.accounts[account]
      && authenticationTime == x.authority.createdAt / 1000
  {
    ReachableIsSound(w);
    x :| Opens(w, x, h);
    assert Earned(w, x);
  }

  lemma {:induction false} RevokedStays(w: World, ops: seq<Op>, h: R.Digest)
    requires h in w.revoked
    ensures h in Run(w, ops, true).revoked
  {
    if ops != [] {
      RevokedStays(w, ops[..|ops| - 1], h);
    }
  }

  /** A revoked or logged-out session never resolves again, at any time. */
  lemma RevokedForGood(w: World, ops: seq<Op>, h: R.Digest, now: int)
    requires Inv(w) && h in w.revoked
    ensures h in Run(w, ops, true).revoked && ResolveSession(Run(w, ops, true).c, h, now).None?
  {
    var v := Run(w, ops, true);
    RunKeepsInv(w, ops, true);
    RevokedStays(w, ops, h);
    if h in v.c.sessions {
      var x :| Opens(v, x, h);
    }
  }
}
