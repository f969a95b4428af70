/**
  The handoff from the account service to the console: a login request is created
  for a browser, authorised by an account session, and exchanged for a console
  session. Each function is one committed transaction; constraints of the tables
  are checked where a statement could violate them.
*/
module ConsoleAuth {
  import opened Prelude
  import opened BrowserTransactions
  import R = GrantRegistry

  const LOGIN_TTL: int := 5 * MINUTE
  const SESSION_TTL: int := 12 * 60 * MINUTE

  datatype Purpose = Login | Logout

  datatype Transaction = Transaction(
    purpose: Purpose, browserHash: R.Digest, returnPath: string,
    session: Option<string>, account: Option<string>, codeHash: Option<R.Digest>,
    createdAt: int, expiresAt: int, consumedAt: Option<int>)

  datatype Session = Session(
    account: string, authSession: string, authenticatedAt: int, createdAt: int, expiresAt: int, revokedAt: Option<int>)

  /** A session of the account service. */
  datatype Authority = Authority(user: string, createdAt: int, expiresAt: int)

  /**
    The two tables of the store, and the tables it reads: account sessions, links from users to
    accounts, active accounts.
  */
  datatype Console = Console(
    transactions: map<string, Transaction>, sessions: map<R.Digest, Session>,
    authority: map<string, Authority>, links: map<string, string>, accounts: map<string, bool>)

  function Min(a: int, b: int): int {
    if a <= b then a else b
  }

  // -------------------------------------------------------------- functions

  function Life(t: Transaction): Lifetime {
    Lifetime(t.createdAt, t.expiresAt, t.consumedAt)
  }

  function CreateLogin(c: Console, id: string, secret: string, path: string, doomed: set<string>, now: int)
    : (Console, Result<int>)
  {
    var kept := c.transactions - doomed;
    if !ValidReturnPath(path) then (c, Err("console_return_path_invalid"))
    else if id in kept then (c, Err("constraint_violation"))
    else
      var row := Transaction(Login, R.Sha(secret), path, None, None, None, now, now + LOGIN_TTL, None);
      (c.(transactions := kept[id := row]), Ok(now + LOGIN_TTL))
  }

  function AuthorizeLogin(c: Console, id: string, session: string, account: string, authExpiresAt: int, code: string,
                          now: int)
    : (Console, Result<int>)
  {
    if id !in c.transactions || !c.transactions[id].purpose.Login? then (c, Err("console_auth_transaction_invalid"))
    else
      var row := c.transactions[id];
      var deadline := Min(row.expiresAt, authExpiresAt);
      if row.consumedAt.Some? then (c, Err("console_auth_transaction_consumed"))
      else if deadline <= now then (c, Err("console_auth_transaction_expired"))
      else if (row.session.Some? && row.session.value != session)
        || (row.account.Some? && row.account.value != account) then
        (c, Err("console_auth_transaction_binding_mismatch"))
      else if session !in c.authority || account !in c.accounts || deadline <= row.createdAt then
        (c, Err("constraint_violation"))
      else
        var bound := row.(session := Some(session), account := Some(account), codeHash := Some(R.Sha(code)),
                          expiresAt := deadline);
        (c.(transactions := c.transactions[id := bound]), Ok(deadline))
  }

  /** The account session, if its user is linked to the account and it may still vouch for it. */
  function AuthorityFor(c: Console, session: string, account: string, now: int): Option<Authority> {
    if session in c.authority && c.authority[session].user in c.links && c.links[c.authority[session].user] == account
       && account in c.accounts && c.accounts[account] && c.authority[session].expiresAt > now
    then Some(c.authority[session]) else None
  }

  datatype Opened = Opened(account: string, authenticationTime: int, returnPath: string, expiresAt: int)

  function ExchangeLogin(c: Console, id: string, secret: string, code: string, token: string, now: int)
    : (Console, Result<Opened>)
  {
    if id !in c.transactions || !c.transactions[id].purpose.Login? || c.transactions[id].session.None?
       || c.transactions[id].account.None? || c.transactions[id].codeHash.None?
    then (c, Err("console_auth_transaction_invalid"))
    else
      var row := c.transactions[id];
      if row.consumedAt.Some? then (c, Err("console_auth_transaction_consumed"))
      else if row.expiresAt <= now then (c, Err("console_auth_transaction_expired"))
      else if row.browserHash != R.Sha(secret) || row.codeHash.value != R.Sha(code) then
        (c, Err("console_auth_transaction_invalid"))
      else
        var authority := AuthorityFor(c, row.session.value, row.account.value, now);
        if authority.None? then (c, Err("console_auth_authority_invalid"))
        else if R.Sha(token) in c.sessions || authority.value.createdAt > now || now < row.createdAt then
          (c, Err("constraint_violation"))
        else
          var expiresAt := Min(authority.value.expiresAt, now + SESSION_TTL);
          var session := Session(row.account.value, row.session.value, authority.value.createdAt, now, expiresAt, None);
          (c.(sessions := c.sessions[R.Sha(token) := session],
              transactions := c.transactions[id := row.(consumedAt := Some(now))]),
           Ok(Opened(row.account.value, authority.value.createdAt / 1000, row.returnPath, expiresAt)))
  }

  function ResolveSession(c: Console, hash: R.Digest, now: int): Option<(string, int)> {
    if hash in c.sessions && c.sessions[hash].expiresAt > now && c.sessions[hash].revokedAt.None?
       && c.sessions[hash].authSession in c.authority && c.authority[c.sessions[hash].authSession].expiresAt > now
       && c.sessions[hash].account in c.accounts && c.accounts[c.sessions[hash].account]
    then Some((c.sessions[hash].account, c.sessions[hash].authenticatedAt / 1000)) else None
  }

  function BeginLogout(c: Console, hash: R.Digest, id: string, noise: R.Digest, path: string, now: int)
    : (Console, Result<()>)
  {
    if !ValidReturnPath(path) then (c, Err("console_return_path_invalid"))
    else if hash !in c.sessions || c.sessions[hash].expiresAt <= now || c.sessions[hash].revokedAt.Some? then
      (c, Err("console_session_invalid"))
    else if now < c.sessions[hash].createdAt || id in c.transactions then (c, Err("constraint_violation"))
    else
      var s := c.sessions[hash];
      var row := Transaction(Logout, noise, path, Some(s.authSession), Some(s.account), None, now, now + LOGIN_TTL,
                             None);
      (c.(sessions := c.sessions[hash := s.(revokedAt := Some(now))], transactions := c.transactions[id := row]),
       Ok(()))
  }

  function ValidateLogout(c: Console, id: string, session: string, consume: bool, now: int): (Console, Result<string>) {
    if id !in c.transactions || !c.transactions[id].purpose.Logout? || c.transactions[id].session != Some(session) then
      (c, Err("console_auth_transaction_invalid"))
    else
      var row := c.transactions[id];
      if row.expiresAt <= now then (c, Err("console_auth_transaction_expired"))
      else if row.consumedAt.Some? then (c, Err("console_auth_transaction_consumed"))
      else if !consume then (c, Ok(row.returnPath))
      else if now < row.createdAt then (c, Err("constraint_violation"))
      else (c.(transactions := c.transactions[id := row.(consumedAt := Some(now))]), Ok(row.returnPath))
  }

  function RevokeSession(c: Console, hash: R.Digest, now: int): (Console, Result<()>) {
    if hash !in c.sessions || c.sessions[hash].revokedAt.Some? then (c, Ok(()))
    else if now < c.sessions[hash].createdAt then (c, Err("constraint_violation"))
    else (c.(sessions := c.sessions[hash := c.sessions[hash].(revokedAt := Some(now))]), Ok(()))
  }

  /** Deleting an account session deletes what refers to it. */
  function DropAuthority(c: Console, session: string): Console {
    c.(authority := c.authority - {session},
       transactions := map id | id in c.transactions && c.transactions[id].session != Some(session) ::
         c.transactions[id],
       sessions := map h | h in c.sessions && c.sessions[h].authSession != session :: c.sessions[h])
  }

  // ------------------------------------------------------------------ store

  class PostgresConsoleAuthStore {
    var transactions: map<string, Transaction>
    var sessions: map<R.Digest, Session>
    var authority: map<string, Authority>
    var links: map<string, string>
    var accounts: map<string, bool>

    ghost function State(): Console
      reads this
    {
      Console(transactions, sessions, authority, links, accounts)
    }

    constructor (c: Console)
      ensures State() == c
    {
      transactions, sessions := c.transactions, c.sessions;
      authority, links, accounts := c.authority, c.links, c.accounts;
    }

    method Create(id: string, secret: string, path: string, doomed: set<string>, now: int) returns (result: Result<int>)
      requires PurgeAllowed(transactions, Life, doomed, now)
      modifies this`transactions
      ensures (State(), result) == CreateLogin(old(State()), id, secret, path, doomed, now)
      ensures result.Err? ==> State() == old(State())
      ensures result.Ok? ==>
        ValidReturnPath(path) && id in transactions && transactions.Keys == old(transactions).Keys - doomed + {id}
    {
      if !ValidReturnPath(path) {
        return Err("console_return_path_invalid");
      }
      var kept := transactions - doomed;
      if id in kept {
        return Err("constraint_violation");
      }
      transactions := kept;
      transactions := transactions[id := Transaction(Login, R.Sha(secret), path, None, None, None, now, now + LOGIN_TTL,
                                                     None)];
      result := Ok(now + LOGIN_TTL);
    }

    method Authorize(id: string, session: string, account: string, authExpiresAt: int, code: string, now: int)
      returns (result: Result<int>)
      modifies this`transactions
      ensures (State(), result) == AuthorizeLogin(old(State()), id, session, account, authExpiresAt, code, now)
      ensures result.Err? ==> State() == old(State())
      ensures result.Ok? ==> now < result.value <= authExpiresAt && result.value <= old(transactions)[id].expiresAt
      // From now on only the new code redeems the request.
      ensures result.Ok? ==> forall secret, other, token, later ::
        other != code ==> ExchangeLogin(State(), id, secret, other, token, later).1.Err?
    {
      if id !in transactions || !transactions[id].purpose.Login? {
        return Err("console_auth_transaction_invalid");
      }
      var row := transactions[id];
      if row.consumedAt.Some? {
        return Err("console_auth_transaction_consumed");
      }
      if row.expiresAt <= now || authExpiresAt <= now {
        return Err("console_auth_transaction_expired");
      }
      if (row.session.Some? && row.session.value != session) || (row.account.Some? && row.account.value != account) {
        return Err("console_auth_transaction_binding_mismatch");
      }
      var deadline := Min(row.expiresAt, authExpiresAt);
      if session !in authority || account !in accounts || deadline <= row.createdAt {
        return Err("constraint_violation");
      }
      transactions := transactions[id := row.(session := Some(session), account := Some(account),
                                              codeHash := Some(R.Sha(code)), expiresAt := deadline)];
      result := Ok(deadline);
    }

    method Exchange(id: string, secret: string, code: string, token: string, now: int) returns (result: Result<Opened>)
      modifies this`transactions, this`sessions
      ensures (State(), result) == ExchangeLogin(old(State()), id, secret, code, token, now)
      ensures result.Err? ==> State() == old(State())
      // The token resolves at once to the account, and the request is used up.
      ensures result.Ok? ==>
        ResolveSession(State(), R.Sha(token), now) == Some((result.value.account, result.value.authenticationTime))
      ensures result.Ok? ==> forall s, c, t, later :: ExchangeLogin(State(), id, s, c, t, later).1.Err?
    {
      if id !in transactions {
        return Err("console_auth_transaction_invalid");
      }
      var row := transactions[id];
      if !row.purpose.Login? || row.session.None? || row.account.None? || row.codeHash.None? {
        return Err("console_auth_transaction_invalid");
      }
      if row.consumedAt.Some? {
        return Err("console_auth_transaction_consumed");
      }
      if row.expiresAt <= now {
        return Err("console_auth_transaction_expired");
      }
      if row.browserHash != R.Sha(secret) || row.codeHash.value != R.Sha(code) {
        return Err("console_auth_transaction_invalid");
      }
      var authorityRow := AuthorityFor(Console(transactions, sessions, authority, links, accounts), row.session.value,
                                       row.account.value, now);
      if authorityRow.None? {
        return Err("console_auth_authority_invalid");
      }
      var expiresAt := Min(authorityRow.value.expiresAt, now + SESSION_TTL);
      if R.Sha(token) in sessions || authorityRow.value.createdAt > now || now < row.createdAt {
        return Err("constraint_violation");
      }
      sessions := sessions[R.Sha(token) := Session(row.account.value, row.session.value, authorityRow.value.createdAt,
                                                   now, expiresAt, None)];
      transactions := transactions[id := row.(consumedAt := Some(now))];
      result := Ok(Opened(row.account.value, authorityRow.value.createdAt / 1000, row.returnPath, expiresAt));
    }

    method StartLogout(hash: R.Digest, id: string, noise: R.Digest, path: string, now: int) returns (result: Result<()>)
      modifies this`transactions, this`sessions
      ensures (State(), result) == BeginLogout(old(State()), hash, id, noise, path, now)
      ensures result.Err? ==> State() == old(State())
      ensures result.Ok? ==> forall later :: ResolveSession(State(), hash, later).None?
      ensures result.Ok? ==> ValidateLogout(State(), id, old(sessions)[hash].authSession, true, now).1 == Ok(path)
    {
      if !ValidReturnPath(path) {
        return Err("console_return_path_invalid");
      }
      if hash !in sessions || sessions[hash].expiresAt <= now || sessions[hash].revokedAt.Some? {
        return Err("console_session_invalid");
      }
      var s := sessions[hash];
      if now < s.createdAt || id in transactions {
        return Err("constraint_violation");
      }
      sessions := sessions[hash := s.(revokedAt := Some(now))];
      transactions := transactions[id := Transaction(Logout, noise, path, Some(s.authSession), Some(s.account), None,
                                                     now, now + LOGIN_TTL, None)];
      result := Ok(());
    }

    method FinishLogout(id: string, session: string, consume: bool, now: int) returns (result: Result<string>)
      modifies this`transactions
      ensures (State(), result) == ValidateLogout(old(State()), id, session, consume, now)
      ensures result.Err? || !consume ==> State() == old(State())
      ensures result.Ok? && consume ==>
        forall other, again, later :: ValidateLogout(State(), id, other, again, later).1.Err?
    {
      if id !in transactions || !transactions[id].purpose.Logout? || transactions[id].session != Some(session) {
        return Err("console_auth_transaction_invalid");
      }
      var row := transactions[id];
      if row.expiresAt <= now {
        return Err("console_auth_transaction_expired");
      }
      if row.consumedAt.Some? {
        return Err("console_auth_transaction_consumed");
      }
      if consume {
        if now < row.createdAt {
          return Err("constraint_violation");
        }
        transactions := transactions[id := row.(consumedAt := Some(now))];
      }
      result := Ok(row.returnPath);
    }

    method Revoke(hash: R.Digest, now: int) returns (result: Result<()>)
      modifies this`sessions
      ensures (State(), result) == RevokeSession(old(State()), hash, now)
      ensures result.Err? ==> State() == old(State())
      ensures result.Ok? ==> forall later :: ResolveSession(State(), hash, later).None?
    {
      if hash in sessions && sessions[hash].revokedAt.None? {
        if now < sessions[hash].createdAt {
          return Err("constraint_violation");
        }
        sessions := sessions[hash := sessions[hash].(revokedAt := Some(now))];
      }
      result := Ok(());
    }
  }
}
