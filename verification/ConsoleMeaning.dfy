/** What each call of the console handoff decides and stores, column by column. */
module ConsoleMeaning {
  import opened Prelude
  import opened BrowserTransactions
  import R = GrantRegistry
  import opened ConsoleAuth

  /** A login is created under a new identifier for five minutes, beside the rows that are not purged. */
  lemma CreateMeaning(c: Console, id: string, secret: string, path: string, doomed: set<string>, now: int)
    ensures var (d, result) := CreateLogin(c, id, secret, path, doomed, now);
      && (result.Ok? <==> ValidReturnPath(path) && (id !in c.transactions || id in doomed))
      && (result.Err? ==> d == c)
      && (result.Ok? ==>
            && result.value == now + 300_000
            && d == c.(transactions := (c.transactions - doomed)[id :=
                         Transaction(Login, R.Sha(secret), path, None, None, None, now, now + 300_000, None)]))
  {
  }

  /** The earlier of the request's deadline and the account session's. */
  lemma MinMeaning(a: int, b: int)
    ensures Min(a, b) <= a && Min(a, b) <= b && (Min(a, b) == a || Min(a, b) == b)
  {
  }

  /**
    An authorisation binds an unconsumed login to its session and account, or finds
    it bound to them, stores the digest of the new code, and never lengthens it.
  */
  lemma AuthorizeMeaning(c: Console, id: string, session: string, account: string, authExpiresAt: int, code: string,
                         now: int)
    ensures var (d, result) := AuthorizeLogin(c, id, session, account, authExpiresAt, code, now);
      && (result.Ok? <==>
            && id in c.transactions
            && var row := c.transactions[id];
              && row.purpose == Login && row.consumedAt == None && now < row.expiresAt && now < authExpiresAt
              && row.createdAt < row.expiresAt && row.createdAt < authExpiresAt
              && (row.session == None || row.session == Some(session))
              && (row.account == None || row.account == Some(account))
              && session in c.authority && account in c.accounts)
      && (result.Err? ==> d == c)
      && (result.Ok? ==>
            var row := c.transactions[id];
            && result.value == (if row.expiresAt < authExpiresAt then row.expiresAt else authExpiresAt)
            && d == c.(transactions := c.transactions[id :=
                         row.(session := Some(session), account := Some(account), codeHash := Some(R.Sha(code)),
                              expiresAt := result.value)]))
  {
  }

  /** The account session may vouch for the account: it is live, its user is linked to it, and the account is active. */
  ghost predicate MayVouch(c: Console, session: string, account: string, now: int) {
    && session in c.authority && now < c.authority[session].expiresAt
    && c.authority[session].user in c.links && c.links[c.authority[session].user] == account
    && account in c.accounts && c.accounts[account]
  }

  /**
    An exchange takes the secret and the latest code of a bound, unconsumed and
    unexpired login whose account session may still vouch; it consumes the login and
    opens a session under a new token, for twelve hours or as long as the account
    session lasts.
  */
  lemma ExchangeMeaning(c: Console, id: string, secret: string, code: string, token: string, now: int)
    ensures var (d, result) := ExchangeLogin(c, id, secret, code, token, now);
      && (result.Ok? <==>
            && id in c.transactions
            && var row := c.transactions[id];
              && row.purpose == Login && row.session.Some? && row.account.Some?
              && row.consumedAt == None && now < row.expiresAt && row.createdAt <= now
              && row.browserHash == R.Sha(secret) && row.codeHash == Some(R.Sha(code))
              && MayVouch(c, row.session.value, row.account.value, now)
              && c.authority[row.session.value].createdAt <= now && R.Sha(token) !in c.sessions)
      && (result.Err? ==> d == c)
      && (result.Ok? ==>
            var row := c.transactions[id];
            var authority := c.authority[row.session.value];
            && result.value.account == row.account.value && result.value.returnPath == row.returnPath
            && result.value.authenticationTime == authority.createdAt / 1000
            && result.value.expiresAt
                 == (if authority.expiresAt < now + 43_200_000 then authority.expiresAt else now + 43_200_000)
            && d == c.(transactions := c.transactions[id := row.(consumedAt := Some(now))],
                       sessions := c.sessions[R.Sha(token) :=
                         Session(row.account.value, row.session.value, authority.createdAt, now, result.value.expiresAt,
                                 None)]))
  {
  }

  /** A session resolves while it and its account session last, it is not revoked, and its account is active. */
  lemma ResolveMeaning(c: Console, hash: R.Digest, now: int)
    ensures var found := ResolveSession(c, hash, now);
      && (found.Some? <==>
            && hash in c.sessions
            && var s := c.sessions[hash];
              && now < s.expiresAt && s.revokedAt == None
              && s.authSession in c.authority && now < c.authority[s.authSession].expiresAt
              && s.account in c.accounts && c.accounts[s.account])
      && (found.Some? ==> found.value == (c.sessions[hash].account, c.sessions[hash].authenticatedAt / 1000))
  {
  }

  /** A logout revokes a session that is neither expired nor revoked and stores a logout request for five minutes. */
  lemma LogoutMeaning(c: Console, hash: R.Digest, id: string, noise: R.Digest, path: string, now: int)
    ensures var (d, result) := BeginLogout(c, hash, id, noise, path, now);
      && (result.Ok? <==>
            && ValidReturnPath(path) && hash in c.sessions && now < c.sessions[hash].expiresAt
            && c.sessions[hash].createdAt <= now && c.sessions[hash].revokedAt == None && id !in c.transactions)
      && (result.Err? ==> d == c)
      && (result.Ok? ==>
            var s := c.sessions[hash];
            d == c.(sessions := c.sessions[hash := s.(revokedAt := Some(now))],
                    transactions := c.transactions[id :=
                      Transaction(Logout, noise, path, Some(s.authSession), Some(s.account), None, now, now + 300_000,
                                  None)]))
  {
  }

  /** A logout request is good for its own account session until its deadline and until it is consumed. */
  lemma ValidateMeaning(c: Console, id: string, session: string, consume: bool, now: int)
    ensures var (d, result) := ValidateLogout(c, id, session, consume, now);
      && (result.Ok? <==>
            && id in c.transactions
            && var row := c.transactions[id];
              && row.purpose == Logout && row.session == Some(session) && now < row.expiresAt
              && row.consumedAt == None && (consume ==> row.createdAt <= now))
      && (result.Ok? ==> result.value == c.transactions[id].returnPath)
      && d == if result.Ok? && consume
              then c.(transactions := c.transactions[id := c.transactions[id].(consumedAt := Some(now))]) else c
  {
  }

  /** A revocation writes the time on a session that has none, unless that lies before the session. */
  lemma RevokeMeaning(c: Console, hash: R.Digest, now: int)
    ensures var (d, result) := RevokeSession(c, hash, now);
      if hash in c.sessions && c.sessions[hash].revokedAt == None then
        if c.sessions[hash].createdAt <= now
        then result.Ok? && d == c.(sessions := c.sessions[hash := c.sessions[hash].(revokedAt := Some(now))])
        else result.Err? && d == c
      else result.Ok? && d == c
  {
  }

  /** With an account session go the requests bound to it and the sessions that rest on it, and nothing else. */
  lemma DropMeaning(c: Console, session: string)
    ensures var d := DropAuthority(c, session);
      && d.links == c.links && d.accounts == c.accounts
      && (forall s :: s in d.authority <==> s in c.authority && s != session)
      && (forall s :: s in d.authority ==> d.authority[s] == c.authority[s])
      && (forall id :: id in d.transactions <==> id in c.transactions && c.transactions[id].session != Some(session))
      && (forall id :: id in d.transactions ==> d.transactions[id] == c.transactions[id])
      && (forall h :: h in d.sessions <==> h in c.sessions && c.sessions[h].authSession != session)
      && (forall h :: h in d.sessions ==> d.sessions[h] == c.sessions[h])
  {
  }
}
