/** What each call on an account login decides and stores, column by column. */
module LoginMeaning {
  import opened Prelude
  import opened BrowserTransactions
  import R = GrantRegistry
  import opened LoginTransactions

  /** Forty-three characters of the base64url alphabet. */
  lemma SecretMeaning(s: string)
    ensures IsSecret(s) <==>
      |s| == 43 && forall c :: c in s ==> 'A' <= c <= 'Z' || 'a' <= c <= 'z' || '0' <= c <= '9' || c == '-' || c == '_'
  {
    if forall c :: c in s ==> 'A' <= c <= 'Z' || 'a' <= c <= 'z' || '0' <= c <= '9' || c == '-' || c == '_' {
      forall i | 0 <= i < |s| ensures SecretChar(s[i]) {
        assert s[i] in s;
      }
    }
  }

  /** A login begins under a new token for ten minutes, beside the rows that are not purged. */
  lemma CreateMeaning(rows: Rows, path: string, csrf: string, token: string, doomed: set<R.Digest>, now: int)
    ensures var (after, result) := Create(rows, path, csrf, token, doomed, now);
      && (result.Ok? <==>
            ValidReturnPath(path) && IsSecret(token) && IsSecret(csrf)
            && (R.Sha(token) !in rows || R.Sha(token) in doomed))
      && (result.Err? ==> after == rows)
      && (result.Ok? ==>
            && result.value == now + 600_000
            && after == (rows - doomed)[R.Sha(token) := Row(path, R.Sha(csrf), None, now, now + 600_000, None)])
  {
  }

  /** A token is good when its own CSRF value comes with it, until its deadline, and while it is not consumed. */
  lemma UseMeaning(rows: Rows, token: string, csrf: string, now: int)
    ensures var used := Use(rows, token, csrf, now);
      && (used.Ok? <==>
            && IsSecret(token) && IsSecret(csrf) && R.Sha(token) in rows
            && rows[R.Sha(token)].csrfHash == R.Sha(csrf) && now < rows[R.Sha(token)].expiresAt
            && rows[R.Sha(token)].consumedAt == None)
      && (used.Ok? ==> used.value == rows[R.Sha(token)])
  {
  }

  /** An email is bound to a good token that has none, or is the one it has; only the binding is written. */
  lemma BindMeaning(rows: Rows, token: string, csrf: string, email: string, now: int)
    ensures var (after, result) := BindEmail(rows, token, csrf, email, now);
      && (result.Ok? <==>
            && 3 <= |email| <= 254 && Use(rows, token, csrf, now).Ok?
            && rows[R.Sha(token)].emailBinding in {None, Some(R.Hmac(token, email))})
      && (result.Err? ==> after == rows)
      && (result.Ok? ==>
            && after.Keys == rows.Keys && (forall h :: h in rows && h != R.Sha(token) ==> after[h] == rows[h])
            && after[R.Sha(token)] == rows[R.Sha(token)].(emailBinding := Some(R.Hmac(token, email))))
  {
  }

  /** A restart consumes a good token now and stores an unused one in its place, for ten minutes and unbound. */
  lemma RestartMeaning(rows: Rows, token: string, csrf: string, newToken: string, now: int)
    ensures var (after, result) := Restart(rows, token, csrf, newToken, now);
      && (result.Ok? <==>
            && Use(rows, token, csrf, now).Ok? && IsSecret(newToken) && R.Sha(newToken) !in rows
            && rows[R.Sha(token)].createdAt <= now)
      && (result.Err? ==> after == rows)
      && (result.Ok? ==>
            var row := rows[R.Sha(token)];
            && result.value == row.returnPath
            && after == rows[R.Sha(token) := row.(consumedAt := Some(now))]
                            [R.Sha(newToken) := Row(row.returnPath, R.Sha(csrf), None, now, now + 600_000, None)])
  {
  }

  /**
    A completion consumes a good token for a user whose email is the bound one, if
    any, and whose linked account is active; the answer names that account, its
    home tenant and the path the login began with.
  */
  lemma CompleteMeaning(rows: Rows, token: string, csrf: string, user: string, users: map<string, string>,
                        link: Option<Link>, now: int)
    ensures var (after, result) := Complete(rows, token, csrf, user, users, link, now);
      && (result.Ok? <==>
            && 1 <= |user| <= 255 && Use(rows, token, csrf, now).Ok?
            && var row := rows[R.Sha(token)];
              && (row.emailBinding == None
                  || (user in users && 3 <= |users[user]| <= 254
                      && row.emailBinding == Some(R.Hmac(token, users[user]))))
              && link.Some? && link.value.active && row.createdAt <= now)
      && (result.Err? ==> after == rows)
      && (result.Ok? ==>
            && result.value.accountId == link.value.accountId && result.value.homeTenantId == link.value.homeTenantId
            && result.value.returnPath == rows[R.Sha(token)].returnPath
            && after == rows[R.Sha(token) := rows[R.Sha(token)].(consumedAt := Some(now))])
  {
  }
}
