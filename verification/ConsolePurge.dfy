/**
  The purge of the console's transaction table, against a table that is never
  purged: when no caller can tell them apart, and when one can.
*/
module ConsolePurge {
  import opened Prelude
  import opened BrowserTransactions
  import R = GrantRegistry
  import opened ConsoleAuth
  import opened ConsoleRuns

  datatype Reply = Deadline(at: int) | Entered(answer: Opened) | Path(path: string) | Done

  function Answer(w: World, op: Op, purging: bool): Result<Reply> {
    match op
    case Create(id, secret, path, doomed, now) =>
      var r := CreateLogin(w.c, id, secret, path, if purging then doomed else {}, now).1;
      if r.Ok? then Ok(Deadline(r.value)) else Err(r.error)
    case Authorize(id, session, account, authExpiresAt, code, now) =>
      var r := AuthorizeLogin(w.c, id, session, account, authExpiresAt, code, now).1;
      if r.Ok? then Ok(Deadline(r.value)) else Err(r.error)
    case Redeem(id, secret, code, token, now) =>
      var r := ExchangeLogin(w.c, id, secret, code, token, now).1;
      if r.Ok? then Ok(Entered(r.value)) else Err(r.error)
    case StartLogout(hash, id, noise, path, now) =>
      var r := BeginLogout(w.c, hash, id, noise, path, now).1;
      if r.Ok? then Ok(Done) else Err(r.error)
    case FinishLogout(id, session, consume, now) =>
      var r := ValidateLogout(w.c, id, session, consume, now).1;
      if r.Ok? then Ok(Path(r.value)) else Err(r.error)
    case Revoke(hash, now) =>
      var r := RevokeSession(w.c, hash, now).1;
      if r.Ok? then Ok(Done) else Err(r.error)
    case _ => Ok(Done)
  }

  /** Equal answers, up to which error a refusal names. */
  predicate SameAnswer(a: Result<Reply>, b: Result<Reply>) {
    if a.Ok? then a == b else b.Err?
  }

  /** Every call of the purged run was possible when it came. */
  ghost predicate Feasible(w: World, ops: seq<Op>) {
    ops == [] || (Feasible(w, ops[..|ops| - 1]) && Possible(Run(w, ops[..|ops| - 1], true), ops[|ops| - 1], true))
  }

  function Clocks(ops: seq<Op>): seq<int> {
    seq(|ops|, i requires 0 <= i < |ops| => ops[i].now)
  }

  lemma ClocksSnoc(ops: seq<Op>, t: int)
    requires ops != []
    ensures Clocks(ops) == Clocks(ops[..|ops| - 1]) + [ops[|ops| - 1].now]
    ensures FallsAtMost(Clocks(ops), t) ==> FallsAtMost(Clocks(ops[..|ops| - 1]), t)
  {
    var before := Clocks(ops[..|ops| - 1]);
    assert Clocks(ops) == before + [ops[|ops| - 1].now];
    if FallsAtMost(Clocks(ops), t) {
      FallsPrefix(before, ops[|ops| - 1].now, t);
    }
  }

  /** The same world, but for the transactions, and every transaction's id was given out. */
  ghost predicate SameRest(p: World, n: World) {
    && n == p.(c := p.c.(transactions := n.c.transactions))
    && (forall id :: id in n.c.transactions ==> id in p.secrets)
  }

  /** The purged and the unpurged world before a call: rows that only the latter has are closed to it. */
  ghost predicate SameButClosed(p: World, n: World, now: int) {
    SameRest(p, n) && LessClosed(p.c.transactions, n.c.transactions, Life, now)
  }

  ghost predicate SameButDead(p: World, n: World, clocks: seq<int>) {
    && n == p.(c := p.c.(transactions := n.c.transactions))
    && LessDead(p.c.transactions, n.c.transactions, Life, clocks)
  }

  /** After a call from `p` and `n`: the same, but for rows left out before or purged by it. */
  ghost predicate StaysAlike(p: World, n: World, p': World, n': World, now: int) {
    && n' == p'.(c := p'.c.(transactions := n'.c.transactions))
    && StaysLess(p.c.transactions, n.c.transactions, p'.c.transactions, n'.c.transactions, Life, now)
  }

  lemma CreateAlike(p: World, n: World, op: Op)
    requires op.Create? && SameButClosed(p, n, op.now) && Possible(p, op, true)
    ensures SameAnswer(Answer(p, op, true), Answer(n, op, false))
    ensures StaysAlike(p, n, Step(p, op, true), Step(n, op, false), op.now)
  {
    var row := Transaction(Login, R.Sha(op.secret), op.path, None, None, None, op.now, op.now + LOGIN_TTL, None);
    InsertStaysLess(p.c.transactions, n.c.transactions, Life, op.doomed, op.id, row, op.now);
    assert n.c.transactions - {} == n.c.transactions;
  }

  lemma AuthorizeAlike(p: World, n: World, op: Op)
    requires op.Authorize? && SameButClosed(p, n, op.now)
    ensures SameAnswer(Answer(p, op, true), Answer(n, op, false))
    ensures StaysAlike(p, n, Step(p, op, true), Step(n, op, false), op.now)
  {
  }

  lemma RedeemAlike(p: World, n: World, op: Op)
    requires op.Redeem? && SameButClosed(p, n, op.now)
    ensures SameAnswer(Answer(p, op, true), Answer(n, op, false))
    ensures StaysAlike(p, n, Step(p, op, true), Step(n, op, false), op.now)
  {
  }

  lemma StartLogoutAlike(p: World, n: World, op: Op)
    requires op.StartLogout? && SameButClosed(p, n, op.now) && Possible(p, op, true)
    ensures SameAnswer(Answer(p, op, true), Answer(n, op, false))
    ensures StaysAlike(p, n, Step(p, op, true), Step(n, op, false), op.now)
  {
  }

  lemma FinishLogoutAlike(p: World, n: World, op: Op)
    requires op.FinishLogout? && SameButClosed(p, n, op.now)
    ensures SameAnswer(Answer(p, op, true), Answer(n, op, false))
    ensures StaysAlike(p, n, Step(p, op, true), Step(n, op, false), op.now)
  {
    if op.id !in p.c.transactions {
      assert Step(n, op, false) == n && Step(p, op, true) == p;
    }
  }

  lemma DropAlike(p: World, n: World, op: Op)
    requires op.Drop? && SameButClosed(p, n, op.now)
    ensures StaysAlike(p, n, Step(p, op, true), Step(n, op, false), op.now)
  {
  }

  lemma OtherAlike(p: World, n: World, op: Op)
    requires !op.Create? && !op.Authorize? && !op.Redeem? && !op.StartLogout? && !op.FinishLogout? && !op.Drop?
    requires SameButClosed(p, n, op.now)
    ensures SameAnswer(Answer(p, op, true), Answer(n, op, false))
    ensures StaysAlike(p, n, Step(p, op, true), Step(n, op, false), op.now)
  {
  }

  lemma StepAlike(p: World, n: World, op: Op)
    requires SameButClosed(p, n, op.now) && Possible(p, op, true)
    ensures Possible(n, op, false)
    ensures SameAnswer(Answer(p, op, true), Answer(n, op, false))
    ensures StaysAlike(p, n, Next(p, op, true), Next(n, op, false), op.now)
  {
    if op.Create? { CreateAlike(p, n, op); }
    else if op.Authorize? { AuthorizeAlike(p, n, op); }
    else if op.Redeem? { RedeemAlike(p, n, op); }
    else if op.StartLogout? { StartLogoutAlike(p, n, op); }
    else if op.FinishLogout? { FinishLogoutAlike(p, n, op); }
    else if op.Drop? { DropAlike(p, n, op); }
    else { OtherAlike(p, n, op); }
  }

  /**
    As long as the clock never falls by more than a day and a millisecond, every
    call of a run gets the answer it would get if nothing was ever purged, and
    sessions, codes, exchanges and revocations are the same.
  */
  lemma {:induction false} PurgeIsUnobservable(w: World, ops: seq<Op>)
    requires Inv(w) && FallsAtMost(Clocks(ops), PURGE_TOLERANCE) && Feasible(w, ops)
    ensures SameButDead(Run(w, ops, true), Run(w, ops, false), Clocks(ops))
    ensures ops != [] ==>
      SameAnswer(Answer(Run(w, ops[..|ops| - 1], true), ops[|ops| - 1], true),
                 Answer(Run(w, ops[..|ops| - 1], false), ops[|ops| - 1], false))
  {
    if ops != [] {
      var before, op := ops[..|ops| - 1], ops[|ops| - 1];
      var p, n := Run(w, before, true), Run(w, before, false);
      ClocksSnoc(ops, PURGE_TOLERANCE);
      PurgeIsUnobservable(w, before);
      RunKeepsInv(w, before, false);
      forall id | id in n.c.transactions ensures id in p.secrets {
        assert RowSound(n, id, n.c.transactions[id]);
      }
      LessDeadIsClosed(p.c.transactions, n.c.transactions, Life, Clocks(before), op.now);
      StepAlike(p, n, op);
      LessStaysDead(p.c.transactions, n.c.transactions, Next(p, op, true).c.transactions,
                    Next(n, op, false).c.transactions,
                    Life, Clocks(before), op.now);
    }
  }

  // ---------------------------------------------------- the exact tolerance

  /** The k-th call gets the answer it would get if nothing was ever purged. */
  ghost predicate AnsweredAlike(w: World, ops: seq<Op>, k: nat)
    requires k < |ops|
  {
    SameAnswer(Answer(Run(w, ops[..k], true), ops[k], true), Answer(Run(w, ops[..k], false), ops[k], false))
  }

  ghost predicate Unobservable(w: World, ops: seq<Op>) {
    forall k: nat :: k < |ops| ==> AnsweredAlike(w, ops, k)
  }

  ghost predicate ToleranceHolds(w: World, t: int) {
    forall ops :: FallsAtMost(Clocks(ops), t) && Feasible(w, ops) ==> Unobservable(w, ops)
  }

  lemma {:induction false} PrefixFits(w: World, ops: seq<Op>, k: nat, t: int)
    requires k <= |ops| && FallsAtMost(Clocks(ops), t) && Feasible(w, ops)
    ensures FallsAtMost(Clocks(ops[..k]), t) && Feasible(w, ops[..k])
  {
    if k < |ops| {
      ClocksSnoc(ops, t);
      PrefixFits(w, ops[..|ops| - 1], k, t);
      assert ops[..|ops| - 1][..k] == ops[..k];
    } else {
      assert ops[..k] == ops;
    }
  }

  lemma RunSnoc(w: World, ops: seq<Op>, op: Op, purging: bool)
    ensures Run(w, ops + [op], purging) == Next(Run(w, ops, purging), op, purging)
    ensures Feasible(w, ops + [op]) <==> Feasible(w, ops) && Possible(Run(w, ops, true), op, true)
  {
    assert (ops + [op])[..|ops|] == ops;
  }

  /** An account and its session, and then a login created at `at`. */
  lemma LoginCreated(w: World, at: int, id: string) returns (ops: seq<Op>)
    requires w.c.transactions == map[] && id !in w.secrets
    ensures |ops| == 3 && forall i :: 0 <= i < |ops| ==> ops[i].now == at
    ensures Feasible(w, ops) && Run(w, ops, true) == Run(w, ops, false)
    ensures var v := Run(w, ops, true);
      && id in v.c.authority && id in v.c.accounts && v.secrets.Keys == w.secrets.Keys + {id}
      && v.c.transactions == map[id := Transaction(Login, R.Sha(id), "/", None, None, None, at, at + LOGIN_TTL, None)]
  {
    var account, session := SetAccount(id, true, at), Authenticate(id, Authority(id, at, at + LOGIN_TTL), at);
    var login := Create(id, id, "/", {}, at);
    ops := [] + [account] + [session] + [login];
    RunSnoc(w, [], account, true);
    RunSnoc(w, [], account, false);
    RunSnoc(w, [] + [account], session, true);
    RunSnoc(w, [] + [account], session, false);
    RunSnoc(w, [] + [account] + [session], login, true);
    RunSnoc(w, [] + [account] + [session], login, false);
  }

  function Max(a: int, b: int): int {
    if a >= b then a else b
  }

  lemma PurgedIsRefused(v: World, purge: Op, late: Op)
    requires purge.Create? && late.Authorize? && purge.doomed == {late.id} && purge.path == "/"
    requires v.c.transactions.Keys == {late.id} && purge.id !in v.secrets && late.id != purge.id
    requires var row := v.c.transactions[late.id];
      && row.purpose.Login? && row.consumedAt.None? && row.session.None? && row.account.None?
      && Max(row.createdAt, late.now) < row.expiresAt == late.authExpiresAt < purge.now - DAY
    requires late.session in v.c.authority && late.account in v.c.accounts
    ensures Possible(v, purge, true) && Possible(v, purge, false)
    ensures Answer(Next(v, purge, true), late, true).Err? && Answer(Next(v, purge, false), late, false).Ok?
  {
    assert v.c.transactions - {late.id} == map[];
  }

  /** A purge a day and a millisecond past the deadline, and then a call a millisecond before the deadline. */
  lemma LatePurgeShows(w: World, at: int, id: string, other: string) returns (ops: seq<Op>)
    requires w.c.transactions == map[] && id !in w.secrets && other !in w.secrets && id != other
    ensures FallsAtMost(Clocks(ops), PURGE_TOLERANCE + 1) && Feasible(w, ops) && !Unobservable(w, ops)
  {
    var start := LoginCreated(w, at, id);
    var purge := Create(other, other, "/", {id}, at + LOGIN_TTL + PURGE_TOLERANCE);
    var late := Authorize(id, id, id, at + LOGIN_TTL, "", at + LOGIN_TTL - 1);
    PurgedIsRefused(Run(w, start, true), purge, late);
    ops := start + [purge, late];
    LastTwoDiffer(w, start, purge, late);
    LastTwoFall(start, purge, late, at);
  }

  lemma LastTwoFall(start: seq<Op>, purge: Op, late: Op, at: int)
    requires forall i :: 0 <= i < |start| ==> start[i].now == at
    requires at <= late.now == purge.now - PURGE_TOLERANCE - 1
    ensures FallsAtMost(Clocks(start + [purge, late]), PURGE_TOLERANCE + 1)
  {
  }

  lemma LastTwoDiffer(w: World, start: seq<Op>, purge: Op, late: Op)
    requires Feasible(w, start) && Run(w, start, true) == Run(w, start, false)
    requires Possible(Run(w, start, true), purge, true)
    requires Possible(Run(w, start, true), purge, false) && late.Authorize?
    requires Answer(Next(Run(w, start, true), purge, true), late, true).Err?
    requires Answer(Next(Run(w, start, true), purge, false), late, false).Ok?
    ensures Feasible(w, start + [purge, late]) && !Unobservable(w, start + [purge, late])
  {
    var ops := start + [purge, late];
    RunSnoc(w, start, purge, true);
    RunSnoc(w, start, purge, false);
    RunSnoc(w, start + [purge], late, true);
    assert start + [purge] + [late] == ops;
    assert ops[..|start| + 1] == start + [purge] && ops[|start| + 1] == late;
    assert !AnsweredAlike(w, ops, |start| + 1);
  }

  /**
    From empty tables of the store, with whatever accounts and sessions beside
    them: the purge is invisible on every run whose clock falls by at most t if
    and only if t is at most a day and a millisecond.
  */
  lemma PurgeToleranceIsExact(authority: map<string, Authority>, links: map<string, string>,
                              accounts: map<string, bool>, t: int)
    ensures ToleranceHolds(Initial(authority, links, accounts), t) <==> t <= PURGE_TOLERANCE
  {
    var w := Initial(authority, links, accounts);
    if t <= PURGE_TOLERANCE {
      forall ops | FallsAtMost(Clocks(ops), t) && Feasible(w, ops) ensures Unobservable(w, ops) {
        ToleratedIsUnobservable(w, ops);
      }
    } else {
      var at: int :| true;
      var ops := LatePurgeShows(w, at, "a", "b");
      assert FallsAtMost(Clocks(ops), t);
    }
  }

  lemma ToleratedIsUnobservable(w: World, ops: seq<Op>)
    requires Inv(w) && FallsAtMost(Clocks(ops), PURGE_TOLERANCE) && Feasible(w, ops)
    ensures Unobservable(w, ops)
  {
    forall k: nat | k < |ops| ensures AnsweredAlike(w, ops, k) {
      PrefixFits(w, ops, k + 1, PURGE_TOLERANCE);
      PurgeIsUnobservable(w, ops[..k + 1]);
      assert ops[..k + 1][..k] == ops[..k];
    }
  }
}
