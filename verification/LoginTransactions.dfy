/**
  Account login transactions: a browser-held token, kept only as its digest, is
  bound to an email, restarted as a new token, and completed once. Each function
  is one committed transaction.
*/
module LoginTransactions {
  import opened Prelude
  import opened BrowserTransactions
  import R = GrantRegistry

  const LOGIN_TTL: int := 10 * MINUTE

  datatype Row = Row(
    returnPath: string, csrfHash: R.Digest, emailBinding: Option<R.Digest>, createdAt: int, expiresAt: int,
    consumedAt: Option<int>)

  type Rows = map<R.Digest, Row>

  /** What linking the completing user gives: its account, and whether that is active. */
  datatype Link = Link(accountId: string, homeTenantId: string, active: bool)

  datatype Completed = Completed(accountId: string, homeTenantId: string, returnPath: string)

  predicate SecretChar(c: char) {
    'A' <= c <= 'Z' || 'a' <= c <= 'z' || '0' <= c <= '9' || c == '_' || c == '-'
  }

  predicate IsSecret(s: string) {
    |s| == 43 && forall i :: 0 <= i < |s| ==> SecretChar(s[i])
  }

  predicate IsEmail(email: string) {
    3 <= |email| <= 254
  }

  function Life(row: Row): Lifetime {
    Lifetime(row.createdAt, row.expiresAt, row.consumedAt)
  }

  /** The row of a token just issued. */
  function Issued(path: string, csrf: string, now: int): Row {
    Row(path, R.Sha(csrf), None, now, now + LOGIN_TTL, None)
  }

  function Create(rows: Rows, path: string, csrf: string, token: string, doomed: set<R.Digest>, now: int)
    : (Rows, Result<int>)
  {
    var kept := rows - doomed;
    if !ValidReturnPath(path) then (rows, Err("account_login_return_invalid"))
    else if !IsSecret(token) || !IsSecret(csrf) then (rows, Err("account_login_transaction_invalid"))
    else if R.Sha(token) in kept then (rows, Err("constraint_violation"))
    else (kept[R.Sha(token) := Issued(path, csrf, now)], Ok(now + LOGIN_TTL))
  }

  /** The checks that every use of a token starts with. */
  function Use(rows: Rows, token: string, csrf: string, now: int): Result<Row> {
    if !IsSecret(token) || !IsSecret(csrf) || R.Sha(token) !in rows || rows[R.Sha(token)].csrfHash != R.Sha(csrf) then
      Err("account_login_transaction_invalid")
    else if rows[R.Sha(token)].expiresAt <= now then Err("account_login_transaction_expired")
    else if rows[R.Sha(token)].consumedAt.Some? then Err("account_login_transaction_consumed")
    else Ok(rows[R.Sha(token)])
  }

  function BindEmail(rows: Rows, token: string, csrf: string, email: string, now: int): (Rows, Result<()>) {
    var used := Use(rows, token, csrf, now);
    var binding := R.Hmac(token, email);
    if !IsEmail(email) then (rows, Err("account_login_transaction_invalid"))
    else if used.Err? then (rows, Err(used.error))
    else if used.value.emailBinding.Some? then
      (rows, if used.value.emailBinding.value == binding then Ok(()) else Err("account_login_email_mismatch"))
    else (rows[R.Sha(token) := used.value.(emailBinding := Some(binding))], Ok(()))
  }

  function Restart(rows: Rows, token: string, csrf: string, newToken: string, now: int): (Rows, Result<string>) {
    var used := Use(rows, token, csrf, now);
    if used.Err? then (rows, Err(used.error))
    else if !IsSecret(newToken) || R.Sha(newToken) in rows || now < used.value.createdAt then
      (rows, Err("constraint_violation"))
    else
      var row := Issued(used.value.returnPath, csrf, now);
      (rows[R.Sha(token) := used.value.(consumedAt := Some(now))][R.Sha(newToken) := row], Ok(row.returnPath))
  }

  /** The email bound to the row, if any, is the user's. */
  predicate EmailMatches(row: Row, token: string, user: string, users: map<string, string>) {
    row.emailBinding.Some? ==>
      user in users && IsEmail(users[user]) && row.emailBinding.value == R.Hmac(token, users[user])
  }

  function Complete(rows: Rows, token: string, csrf: string, user: string, users: map<string, string>,
                    link: Option<Link>, now: int)
    : (Rows, Result<Completed>)
  {
    var used := Use(rows, token, csrf, now);
    if !(1 <= |user| <= 255) then (rows, Err("auth_user_id_invalid"))
    else if used.Err? then (rows, Err(used.error))
    else if !EmailMatches(used.value, token, user, users) then (rows, Err("account_login_email_mismatch"))
    else if link.None? || !link.value.active then (rows, Err("account_auth_bootstrap_failed"))
    else if now < used.value.createdAt then (rows, Err("constraint_violation"))
    else (rows[R.Sha(token) := used.value.(consumedAt := Some(now))],
          Ok(Completed(link.value.accountId, link.value.homeTenantId, used.value.returnPath)))
  }

  // ------------------------------------------------------------------ store

  class PostgresAccountLoginTransactionStore {
    var rows: Rows

    constructor ()
      ensures rows == map[]
    {
      rows := map[];
    }

    method Open(path: string, csrf: string, token: string, doomed: set<R.Digest>, now: int)
      returns (result: Result<int>)
      requires PurgeAllowed(rows, Life, doomed, now)
      modifies this
      ensures (rows, result) == Create(old(rows), path, csrf, token, doomed, now)
      ensures result.Err? ==> rows == old(rows)
      ensures result.Ok? ==> forall later :: Use(rows, token, csrf, later).Ok? <==> later < result.value
    {
      if !ValidReturnPath(path) {
        return Err("account_login_return_invalid");
      }
      if !IsSecret(token) || !IsSecret(csrf) {
        return Err("account_login_transaction_invalid");
      }
      var kept := rows - doomed;
      if R.Sha(token) in kept {
        return Err("constraint_violation");
      }
      rows := kept;
      rows := rows[R.Sha(token) := Row(path, R.Sha(csrf), None, now, now + LOGIN_TTL, None)];
      result := Ok(now + LOGIN_TTL);
    }

    method Bind(token: string, csrf: string, email: string, now: int) returns (result: Result<()>)
      modifies this
      ensures (rows, result) == BindEmail(old(rows), token, csrf, email, now)
      ensures result.Err? ==> rows == old(rows)
      ensures result.Ok? ==> forall other, later :: other != email ==> BindEmail(rows, token, csrf, other, later).1.Err?
    {
      if !IsEmail(email) {
        return Err("account_login_transaction_invalid");
      }
      var used := Use(rows, token, csrf, now);
      if used.Err? {
        return Err(used.error);
      }
      var binding := R.Hmac(token, email);
      if used.value.emailBinding.Some? && used.value.emailBinding.value != binding {
        return Err("account_login_email_mismatch");
      }
      if used.value.emailBinding.None? {
        rows := rows[R.Sha(token) := used.value.(emailBinding := Some(binding))];
      }
      result := Ok(());
    }

    method Reissue(token: string, csrf: string, newToken: string, now: int) returns (result: Result<string>)
      modifies this
      ensures (rows, result) == Restart(old(rows), token, csrf, newToken, now)
      ensures result.Err? ==> rows == old(rows)
      // The old token is spent, and the new one is good for the same path until its deadline.
      ensures result.Ok? ==> forall c, later :: Use(rows, token, c, later).Err?
      ensures result.Ok? ==> forall later :: later < now + LOGIN_TTL ==>
        Use(rows, newToken, csrf, later).Ok? && Use(rows, newToken, csrf, later).value.returnPath == result.value
    {
      var used := Use(rows, token, csrf, now);
      if used.Err? {
        return Err(used.error);
      }
      if !IsSecret(newToken) || R.Sha(newToken) in rows || now < used.value.createdAt {
        return Err("constraint_violation");
      }
      rows := rows[R.Sha(token) := used.value.(consumedAt := Some(now))];
      rows := rows[R.Sha(newToken) := Row(used.value.returnPath, R.Sha(csrf), None, now, now + LOGIN_TTL, None)];
      result := Ok(used.value.returnPath);
    }

    /** The user's email is read and the account linked within the transaction; a failure leaves the row as it was. */
    method Finish(token: string, csrf: string, user: string, users: map<string, string>, link: Option<Link>, now: int)
      returns (result: Result<Completed>)
      modifies this
      ensures (rows, result) == Complete(old(rows), token, csrf, user, users, link, now)
      ensures result.Err? ==> rows == old(rows)
      ensures result.Ok? ==> forall c, later :: Use(rows, token, c, later).Err?
    {
      if !(1 <= |user| <= 255) {
        return Err("auth_user_id_invalid");
      }
      var used := Use(rows, token, csrf, now);
      if used.Err? {
        return Err(used.error);
      }
      if used.value.emailBinding.Some? {
        if user !in users || !IsEmail(users[user]) || used.value.emailBinding.value != R.Hmac(token, users[user]) {
          return Err("account_login_email_mismatch");
        }
      }
      if link.None? || !link.value.active {
        return Err("account_auth_bootstrap_failed");
      }
      if now < used.value.createdAt {
        return Err("constraint_violation");
      }
      rows := rows[R.Sha(token) := used.value.(consumedAt := Some(now))];
      result := Ok(Completed(link.value.accountId, link.value.homeTenantId, used.value.returnPath));
    }
  }

  // ------------------------------------------------------------------- runs

  /** A login that completed: with which token, by which user, and that user's email at the time. */
  datatype Completion = Completion(token: string, user: string, email: Option<string>)

  function CompletionBy(token: string, user: string, users: map<string, string>): Completion {
    Completion(token, user, if user in users then Some(users[user]) else None)
  }

  datatype Origin = Origin(returnPath: string, csrf: string)

  /**
    The rows, and a history: the chain of each token, how each chain began, the email first bound to each token,
    and all completions.
  */
  datatype World = World(
    rows: Rows, chain: map<string, nat>, origins: seq<Origin>, emails: map<string, string>,
    completions: seq<Completion>)

  datatype Op =
    | Begin(path: string, csrf: string, token: string, doomed: set<R.Digest>, now: int)
    | Bind(token: string, csrf: string, email: string, now: int)
    | Reissue(token: string, csrf: string, newToken: string, now: int)
    | Finish(token: string, csrf: string, user: string, users: map<string, string>, link: Option<Link>, now: int)

  /** Random tokens never come twice. */
  predicate Fresh(w: World, op: Op) {
    match op
    case Begin(_, _, token, _, _) => token !in w.chain
    case Reissue(_, _, newToken, _) => newToken !in w.chain
    case _ => true
  }

  /** Tokens are fresh, and a purge deletes what it may. */
  ghost predicate Possible(w: World, op: Op) {
    Fresh(w, op) && (op.Begin? ==> PurgeAllowed(w.rows, Life, op.doomed, op.now))
  }

  function Step(w: World, op: Op): World {
    match op
    case Begin(path, csrf, token, doomed, now) =>
      var (rows, done) := Create(w.rows, path, csrf, token, doomed, now);
      if done.Err? then w
      else w.(rows := rows, chain := w.chain[token := |w.origins|], origins := w.origins + [Origin(path, csrf)])
    case Bind(token, csrf, email, now) =>
      var (rows, done) := BindEmail(w.rows, token, csrf, email, now);
      if done.Err? then w
      else w.(rows := rows, emails := if token in w.emails then w.emails else w.emails[token := email])
    case Reissue(token, csrf, newToken, now) =>
      var (rows, done) := Restart(w.rows, token, csrf, newToken, now);
      if done.Err? || token !in w.chain then w else w.(rows := rows, chain := w.chain[newToken := w.chain[token]])
    case Finish(token, csrf, user, users, link, now) =>
      var (rows, done) := Complete(w.rows, token, csrf, user, users, link, now);
      if done.Err? then w
      else w.(rows := rows, completions := w.completions + [CompletionBy(token, user, users)])
  }

  ghost function Next(w: World, op: Op): World {
    if Possible(w, op) then Step(w, op) else w
  }

  ghost function Run(w: World, ops: seq<Op>): World {
    if ops == [] then w else Next(Run(w, ops[..|ops| - 1]), ops[|ops| - 1])
  }

  const EMPTY := World(map[], map[], [], map[], [])

  /**
    The row belongs to a chain, has its path and CSRF digest, and is bound to the email its token
    was first bound to.
  */
  ghost predicate RowSound(w: World, h: R.Digest, row: Row) {
    && h.Sha? && h.text in w.chain && w.chain[h.text] < |w.origins|
    && row.returnPath == w.origins[w.chain[h.text]].returnPath
    && row.csrfHash == R.Sha(w.origins[w.chain[h.text]].csrf)
    && (row.emailBinding.Some? <==> h.text in w.emails)
    && (row.emailBinding.Some? ==> row.emailBinding.value == R.Hmac(h.text, w.emails[h.text]))
  }

  ghost predicate RowsSound(w: World) {
    forall h :: h in w.rows ==> RowSound(w, h, w.rows[h])
  }

  /** Chains have an origin; emails and completions belong to issued tokens. */
  ghost predicate HistorySound(w: World) {
    && (forall t :: t in w.chain ==> w.chain[t] < |w.origins|)
    && (forall t :: t in w.emails ==> t in w.chain)
    && (forall x :: x in w.completions ==> x.token in w.chain)
  }

  predicate Open(w: World, token: string) {
    R.Sha(token) in w.rows && w.rows[R.Sha(token)].consumedAt.None?
  }

  ghost predicate SameChain(w: World, t: string, u: string) {
    t in w.chain && u in w.chain && w.chain[t] == w.chain[u]
  }

  /** At most one token of a chain is open. */
  ghost predicate OneOpen(w: World) {
    forall t, u :: SameChain(w, t, u) && Open(w, t) && Open(w, u) ==> t == u
  }

  /** No token is open in a chain that completed. */
  ghost predicate CompletedClosed(w: World) {
    forall x, t :: x in w.completions && SameChain(w, x.token, t) ==> !Open(w, t)
  }

  ghost predicate CompletionsApart(w: World) {
    forall i, j :: 0 <= i < j < |w.completions| ==> !SameChain(w, w.completions[i].token, w.completions[j].token)
  }

  /** A completing user's email is the one bound to the token. */
  ghost predicate Honest(w: World, x: Completion) {
    x.token in w.emails ==> x.email == Some(w.emails[x.token])
  }

  ghost predicate AllHonest(w: World) {
    forall x :: x in w.completions ==> Honest(w, x)
  }

  ghost predicate Inv(w: World) {
    RowsSound(w) && HistorySound(w) && OneOpen(w) && CompletedClosed(w) && CompletionsApart(w) && AllHonest(w)
  }

  function BoundTo(row: Row, token: string, email: string): Row {
    row.(emailBinding := Some(R.Hmac(token, email)))
  }

  /** What a successful call changes, without the checks on the shape of its arguments. */
  ghost predicate Effect(w: World, v: World, op: Op) {
    || v == w
    || (op.Begin? && op.token !in w.chain
        && v == w.(rows := (w.rows - op.doomed)[R.Sha(op.token) := Issued(op.path, op.csrf, op.now)],
                   chain := w.chain[op.token := |w.origins|], origins := w.origins + [Origin(op.path, op.csrf)]))
    || (op.Bind? && Open(w, op.token)
        && w.rows[R.Sha(op.token)].emailBinding in {None, Some(R.Hmac(op.token, op.email))}
        && v == w.(rows := w.rows[R.Sha(op.token) := BoundTo(w.rows[R.Sha(op.token)], op.token, op.email)],
                   emails := if op.token in w.emails then w.emails else w.emails[op.token := op.email]))
    || (op.Reissue? && Open(w, op.token) && op.token in w.chain && op.newToken !in w.chain
        && w.rows[R.Sha(op.token)].csrfHash == R.Sha(op.csrf)
        && v == w.(rows := w.rows[R.Sha(op.token) := w.rows[R.Sha(op.token)].(consumedAt := Some(op.now))]
                                 [R.Sha(op.newToken) := Issued(w.rows[R.Sha(op.token)].returnPath, op.csrf, op.now)],
                   chain := w.chain[op.newToken := w.chain[op.token]]))
    || (op.Finish? && Open(w, op.token)
        && (w.rows[R.Sha(op.token)].emailBinding.Some? ==>
              op.user in op.users && w.rows[R.Sha(op.token)].emailBinding.value == R.Hmac(op.token, op.users[op.user]))
        && v == w.(rows := w.rows[R.Sha(op.token) := w.rows[R.Sha(op.token)].(consumedAt := Some(op.now))],
                   completions := w.completions + [CompletionBy(op.token, op.user, op.users)]))
  }

  lemma NextEffect(w: World, op: Op)
    ensures Effect(w, Next(w, op), op)
  {
    if Possible(w, op) {
      StepEffect(w, op);
    }
  }

  lemma StepEffect(w: World, op: Op)
    requires Fresh(w, op)
    ensures Effect(w, Step(w, op), op)
  {
    if op.Bind? && Open(w, op.token) && w.rows[R.Sha(op.token)].emailBinding.Some? {
      var row := w.rows[R.Sha(op.token)];
      assert w.rows == w.rows[R.Sha(op.token) := row.(emailBinding := row.emailBinding)];
    }
  }

  lemma StepKeepsRow(w: World, v: World, op: Op, h: R.Digest)
    requires Effect(w, v, op)
    requires RowsSound(w) && HistorySound(w) && h in v.rows
    ensures RowSound(v, h, v.rows[h])
  {
    if h in w.rows {
      assert RowSound(w, h, w.rows[h]);
    }
    if op.Reissue? && R.Sha(op.token) in w.rows {
      assert RowSound(w, R.Sha(op.token), w.rows[R.Sha(op.token)]);
    }
  }

  lemma StepKeepsHistory(w: World, v: World, op: Op)
    requires Effect(w, v, op)
    requires RowsSound(w) && HistorySound(w)
    ensures HistorySound(v)
  {
    if (op.Bind? || op.Finish?) && R.Sha(op.token) in w.rows {
      assert RowSound(w, R.Sha(op.token), w.rows[R.Sha(op.token)]);
    }
  }

  ghost predicate StayedOpen(w: World, v: World, t: string) {
    t in w.chain && Open(w, t) && t in v.chain && v.chain[t] == w.chain[t]
  }

  /** The step began a chain with the token. */
  ghost predicate Began(w: World, v: World, t: string) {
    t !in w.chain && v.chain == w.chain[t := |w.origins|] && v.completions == w.completions
  }

  /** The step issued the token as the successor of the open token `before`, which it closed. */
  ghost predicate Succeeded(w: World, v: World, before: string, t: string) {
    && t !in w.chain && before in w.chain && v.chain == w.chain[t := w.chain[before]] && v.completions == w.completions
    && Open(w, before) && !Open(v, before)
  }

  /** The token that a restart replaces. */
  function Replaced(op: Op): string {
    if op.Reissue? then op.token else ""
  }

  lemma OpenAfter(w: World, v: World, op: Op, t: string)
    requires Effect(w, v, op)
    requires RowsSound(w) && HistorySound(w) && Open(v, t)
    ensures StayedOpen(w, v, t) || Began(w, v, t) || Succeeded(w, v, Replaced(op), t)
  {
    if R.Sha(t) in w.rows {
      assert RowSound(w, R.Sha(t), w.rows[R.Sha(t)]);
    }
    if op.Reissue? && R.Sha(op.token) in w.rows {
      assert RowSound(w, R.Sha(op.token), w.rows[R.Sha(op.token)]);
    }
  }

  lemma ChainsKept(w: World, v: World, op: Op, t: string)
    requires Effect(w, v, op)
    requires t in w.chain
    ensures t in v.chain && v.chain[t] == w.chain[t]
  {
  }

  lemma StepKeepsOneOpen(w: World, v: World, op: Op, t: string, u: string)
    requires Effect(w, v, op)
    requires RowsSound(w) && HistorySound(w) && OneOpen(w)
    requires SameChain(v, t, u) && Open(v, t) && Open(v, u)
    ensures t == u
  {
    OpenAfter(w, v, op, t);
    OpenAfter(w, v, op, u);
    if StayedOpen(w, v, t) && StayedOpen(w, v, u) {
      assert SameChain(w, t, u);
    } else if StayedOpen(w, v, t) && Succeeded(w, v, Replaced(op), u) {
      assert SameChain(w, t, Replaced(op));
    } else if StayedOpen(w, v, u) && Succeeded(w, v, Replaced(op), t) {
      assert SameChain(w, u, Replaced(op));
    }
  }

  lemma StepKeepsCompletedClosed(w: World, v: World, op: Op, x: Completion, t: string)
    requires Effect(w, v, op)
    requires RowsSound(w) && HistorySound(w) && OneOpen(w) && CompletedClosed(w)
    requires x in v.completions && SameChain(v, x.token, t)
    ensures !Open(v, t)
  {
    if x in w.completions {
      ChainsKept(w, v, op, x.token);
      assert !(SameChain(w, x.token, t) && Open(w, t));
      assert !(SameChain(w, x.token, Replaced(op)) && Open(w, Replaced(op)));
    } else {
      assert op.Finish? && Open(w, x.token) && v.chain == w.chain;
      assert SameChain(w, x.token, t) && Open(w, t) ==> t == x.token;
    }
    if Open(v, t) {
      OpenAfter(w, v, op, t);
    }
  }

  lemma StepKeepsCompletionsApart(w: World, v: World, op: Op, i: nat, j: nat)
    requires Effect(w, v, op)
    requires RowsSound(w) && HistorySound(w) && CompletedClosed(w) && CompletionsApart(w)
    requires i < j < |v.completions|
    ensures !SameChain(v, v.completions[i].token, v.completions[j].token)
  {
    var t, u := v.completions[i].token, v.completions[j].token;
    assert w.completions[i] in w.completions && v.completions[i] == w.completions[i];
    ChainsKept(w, v, op, t);
    if j < |w.completions| {
      assert w.completions[j] in w.completions;
      ChainsKept(w, v, op, u);
      assert !SameChain(w, w.completions[i].token, w.completions[j].token);
    } else {
      assert Open(w, u) && w.chain == v.chain;
    }
  }

  lemma StepKeepsHonest(w: World, v: World, op: Op, x: Completion)
    requires Effect(w, v, op)
    requires Inv(w) && x in v.completions
    ensures Honest(v, x)
  {
    if x in w.completions {
      assert Honest(w, x) && SameChain(w, x.token, x.token);
    } else {
      assert RowSound(w, R.Sha(op.token), w.rows[R.Sha(op.token)]);
    }
  }

  lemma StepKeepsInv(w: World, op: Op)
    requires Inv(w)
    ensures Inv(Next(w, op))
  {
    NextEffect(w, op);
    EffectKeepsInv(w, Next(w, op), op);
  }

  lemma EffectKeepsInv(w: World, v: World, op: Op)
    requires Inv(w) && Effect(w, v, op)
    ensures Inv(v)
  {
    forall h | h in v.rows ensures RowSound(v, h, v.rows[h]) {
      StepKeepsRow(w, v, op, h);
    }
    StepKeepsHistory(w, v, op);
    forall t, u | SameChain(v, t, u) && Open(v, t) && Open(v, u) ensures t == u {
      StepKeepsOneOpen(w, v, op, t, u);
    }
    forall x, t | x in v.completions && SameChain(v, x.token, t) ensures !Open(v, t) {
      StepKeepsCompletedClosed(w, v, op, x, t);
    }
    forall i, j | 0 <= i < j < |v.completions| ensures !SameChain(v, v.completions[i].token, v.completions[j].token) {
      StepKeepsCompletionsApart(w, v, op, i, j);
    }
    forall x | x in v.completions ensures Honest(v, x) {
      StepKeepsHonest(w, v, op, x);
    }
  }

  /**
    After any run from an empty store: of all tokens of a chain at most one is
    open, all carry the chain's return path and CSRF digest, a chain completes at
    most once and has no open token afterwards, and whoever completed with an
    email-bound token had that email.
  */
  lemma LoginChainsAreSound(ops: seq<Op>)
    ensures Inv(Run(EMPTY, ops))
  {
    RunKeepsInv(EMPTY, ops);
  }

  lemma {:induction false} RunKeepsInv(w: World, ops: seq<Op>)
    requires Inv(w)
    ensures Inv(Run(w, ops))
  {
    if ops != [] {
      RunKeepsInv(w, ops[..|ops| - 1]);
      StepKeepsInv(Run(w, ops[..|ops| - 1]), ops[|ops| - 1]);
    }
  }

  /** A chain completes at most once over any number of restarts. */
  lemma OneCompletionPerChain(ops: seq<Op>, i: nat, j: nat)
    requires i < j < |Run(EMPTY, ops).completions|
    ensures var w := Run(EMPTY, ops);
      w.completions[i].token in w.chain && w.completions[j].token in w.chain
      && w.chain[w.completions[i].token] != w.chain[w.completions[j].token]
  {
    LoginChainsAreSound(ops);
    var w := Run(EMPTY, ops);
    assert w.completions[i] in w.completions && w.completions[j] in w.completions;
    assert !SameChain(w, w.completions[i].token, w.completions[j].token);
  }

  lemma {:induction false} FirstEmailStays(w: World, ops: seq<Op>, token: string)
    requires token in w.emails
    ensures token in Run(w, ops).emails && Run(w, ops).emails[token] == w.emails[token]
  {
    if ops != [] {
      FirstEmailStays(w, ops[..|ops| - 1], token);
    }
  }

  /**
    The stored email binding of a row is written once: whatever is called later, the row keeps it
    for as long as it exists.
  */
  lemma EmailIsWrittenOnce(ops: seq<Op>, more: seq<Op>, token: string)
    requires var w := Run(EMPTY, ops);
      R.Sha(token) in w.rows && w.rows[R.Sha(token)].emailBinding.Some?
    requires R.Sha(token) in Run(Run(EMPTY, ops), more).rows
    ensures Run(Run(EMPTY, ops), more).rows[R.Sha(token)].emailBinding
      == Run(EMPTY, ops).rows[R.Sha(token)].emailBinding
  {
    var w := Run(EMPTY, ops);
    RunKeepsInv(EMPTY, ops);
    RunKeepsInv(w, more);
    assert RowSound(w, R.Sha(token), w.rows[R.Sha(token)]);
    FirstEmailStays(w, more, token);
    assert RowSound(Run(w, more), R.Sha(token), Run(w, more).rows[R.Sha(token)]);
  }

  // ----------------------------------------------------- tokens stay usable

  /** The run's calls on the token that could close it all failed, and no clock reads a day past its deadline. */
  ghost predicate Undisturbed(w: World, ops: seq<Op>, token: string, deadline: int) {
    forall k :: 0 <= k < |ops| ==>
      && ops[k].now <= deadline + DAY
      && (ops[k].Reissue? && ops[k].token == token ==>
            Restart(Run(w, ops[..k]).rows, token, ops[k].csrf, ops[k].newToken, ops[k].now).1.Err?)
      && (ops[k].Finish? && ops[k].token == token ==>
            Complete(Run(w, ops[..k]).rows, token, ops[k].csrf, ops[k].user, ops[k].users, ops[k].link,
                     ops[k].now).1.Err?)
  }

  /** The row but for an email bound since. */
  predicate SameButEmail(a: Row, b: Row) {
    b == a.(emailBinding := b.emailBinding) && (a.emailBinding.Some? ==> b == a)
  }

  lemma StepKeepsToken(w: World, op: Op, token: string)
    requires token in w.chain && Open(w, token) && op.now <= w.rows[R.Sha(token)].expiresAt + DAY
    requires op.Reissue? && op.token == token ==> Restart(w.rows, token, op.csrf, op.newToken, op.now).1.Err?
    requires op.Finish? && op.token == token ==>
      Complete(w.rows, token, op.csrf, op.user, op.users, op.link, op.now).1.Err?
    ensures token in Next(w, op).chain && Open(Next(w, op), token)
    ensures SameButEmail(w.rows[R.Sha(token)], Next(w, op).rows[R.Sha(token)])
  {
    if (op.Reissue? || op.Finish?) && op.token == token {
      assert Next(w, op) == w;
    } else if Possible(w, op) {
      NextEffect(w, op);
      if op.Begin? {
        assert !Purgeable(Life(w.rows[R.Sha(token)]), op.now);
      }
      OtherCallsKeep(w, Next(w, op), op, token);
    }
  }

  /** Calls that neither restart nor complete the token nor purge it leave it open. */
  lemma OtherCallsKeep(w: World, v: World, op: Op, token: string)
    requires Effect(w, v, op) && token in w.chain && Open(w, token)
    requires !((op.Reissue? || op.Finish?) && op.token == token)
    requires op.Begin? ==> R.Sha(token) !in op.doomed
    ensures token in v.chain && Open(v, token) && SameButEmail(w.rows[R.Sha(token)], v.rows[R.Sha(token)])
  {
  }

  /**
    Failed completions and restarts, other tokens' calls and purges leave an open token open, with
    its deadline and path.
  */
  lemma {:induction false} TokenStaysUsable(w: World, ops: seq<Op>, token: string)
    requires token in w.chain && Open(w, token) && Undisturbed(w, ops, token, w.rows[R.Sha(token)].expiresAt)
    ensures token in Run(w, ops).chain && Open(Run(w, ops), token)
    ensures SameButEmail(w.rows[R.Sha(token)], Run(w, ops).rows[R.Sha(token)])
  {
    if ops != [] {
      var k := |ops| - 1;
      assert forall i :: 0 <= i < k ==> ops[..k][..i] == ops[..i];
      TokenStaysUsable(w, ops[..k], token);
      StepKeepsToken(Run(w, ops[..k]), ops[k], token);
    }
  }
}
