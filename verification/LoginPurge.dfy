/**
  The purge of old account logins, against a table that is never purged: when no
  caller can tell them apart, and when one can.
*/
module LoginPurge {
  import opened Prelude
  import opened BrowserTransactions
  import R = GrantRegistry
  import opened LoginTransactions

  /** The call without its purge. */
  function KeepAll(op: Op): Op {
    if op.Begin? then op.(doomed := {}) else op
  }

  function FullNext(w: World, op: Op): World {
    if Fresh(w, op) then Step(w, KeepAll(op)) else w
  }

  /** The run on a table that is never purged. */
  function FullRun(w: World, ops: seq<Op>): World {
    if ops == [] then w else FullNext(FullRun(w, ops[..|ops| - 1]), ops[|ops| - 1])
  }

  lemma {:induction false} FullRunKeepsInv(w: World, ops: seq<Op>)
    requires Inv(w)
    ensures Inv(FullRun(w, ops))
  {
    if ops != [] {
      var before, op := FullRun(w, ops[..|ops| - 1]), ops[|ops| - 1];
      FullRunKeepsInv(w, ops[..|ops| - 1]);
      if Fresh(before, op) {
        StepEffect(before, KeepAll(op));
        EffectKeepsInv(before, Step(before, KeepAll(op)), KeepAll(op));
      }
    }
  }

  datatype Reply = Deadline(at: int) | Bound | Path(path: string) | Entered(answer: Completed)

  function Answer(w: World, op: Op): Result<Reply> {
    match op
    case Begin(path, csrf, token, doomed, now) =>
      var r := Create(w.rows, path, csrf, token, doomed, now).1;
      if r.Ok? then Ok(Deadline(r.value)) else Err(r.error)
    case Bind(token, csrf, email, now) =>
      var r := BindEmail(w.rows, token, csrf, email, now).1;
      if r.Ok? then Ok(Bound) else Err(r.error)
    case Reissue(token, csrf, newToken, now) =>
      var r := Restart(w.rows, token, csrf, newToken, now).1;
      if r.Ok? then Ok(Path(r.value)) else Err(r.error)
    case Finish(token, csrf, user, users, link, now) =>
      var r := Complete(w.rows, token, csrf, user, users, link, now).1;
      if r.Ok? then Ok(Entered(r.value)) else Err(r.error)
  }

  /** Equal answers, up to which error a refusal names. */
  predicate SameAnswer(a: Result<Reply>, b: Result<Reply>) {
    if a.Ok? then a == b else b.Err?
  }

  /** Every call of the purged run was possible when it came. */
  ghost predicate Feasible(w: World, ops: seq<Op>) {
    ops == [] || (Feasible(w, ops[..|ops| - 1]) && Possible(Run(w, ops[..|ops| - 1]), ops[|ops| - 1]))
  }

  function Clocks(ops: seq<Op>): seq<int> {
    seq(|ops|, i requires 0 <= i < |ops| => ops[i].now)
  }

  lemma ClocksSnoc(ops: seq<Op>, t: int)
    requires ops != []
    ensures Clocks(ops) == Clocks(ops[..|ops| - 1]) + [ops[|ops| - 1].now]
    ensures FallsAtMost(Clocks(ops), t) ==> FallsAtMost(Clocks(ops[..|ops| - 1]), t)
  {
    var before := Clocks(ops[..|ops| - 1]);
    assert Clocks(ops) == before + [ops[|ops| - 1].now];
    if FallsAtMost(Clocks(ops), t) {
      FallsPrefix(before, ops[|ops| - 1].now, t);
    }
  }

  /** The purged and the unpurged world before a call: rows that only the latter has are closed to it. */
  ghost predicate SameButClosed(p: World, n: World, now: int) {
    && n == p.(rows := n.rows)
    && (forall h :: h in n.rows ==> h.Sha? && h.text in p.chain)
    && LessClosed(p.rows, n.rows, Life, now)
  }

  ghost predicate SameButDead(p: World, n: World, clocks: seq<int>) {
    n == p.(rows := n.rows) && LessDead(p.rows, n.rows, Life, clocks)
  }

  /** After a call from `p` and `n`: the same, but for rows left out before or purged by it. */
  ghost predicate StaysAlike(p: World, n: World, p': World, n': World, now: int) {
    n' == p'.(rows := n'.rows) && StaysLess(p.rows, n.rows, p'.rows, n'.rows, Life, now)
  }

  lemma BeginAlike(p: World, n: World, op: Op)
    requires op.Begin? && SameButClosed(p, n, op.now) && Possible(p, op)
    ensures SameAnswer(Answer(p, op), Answer(n, KeepAll(op)))
    ensures StaysAlike(p, n, Step(p, op), Step(n, KeepAll(op)), op.now)
  {
    InsertStaysLess(p.rows, n.rows, Life, op.doomed, R.Sha(op.token), Issued(op.path, op.csrf, op.now), op.now);
    assert n.rows - {} == n.rows;
  }

  /** A token answers alike on both tables, but for which error a refusal names. */
  lemma UseAlike(p: World, n: World, token: string, csrf: string, now: int)
    requires SameButClosed(p, n, now)
    ensures Use(p.rows, token, csrf, now).Ok? ==> Use(n.rows, token, csrf, now) == Use(p.rows, token, csrf, now)
    ensures Use(p.rows, token, csrf, now).Err? ==> Use(n.rows, token, csrf, now).Err?
  {
  }

  lemma BindAlike(p: World, n: World, op: Op)
    requires op.Bind? && SameButClosed(p, n, op.now)
    ensures SameAnswer(Answer(p, op), Answer(n, op))
    ensures StaysAlike(p, n, Step(p, op), Step(n, op), op.now)
  {
    UseAlike(p, n, op.token, op.csrf, op.now);
  }

  lemma ReissueAlike(p: World, n: World, op: Op)
    requires op.Reissue? && SameButClosed(p, n, op.now) && Possible(p, op)
    ensures SameAnswer(Answer(p, op), Answer(n, op))
    ensures StaysAlike(p, n, Step(p, op), Step(n, op), op.now)
  {
    UseAlike(p, n, op.token, op.csrf, op.now);
  }

  lemma FinishAlike(p: World, n: World, op: Op)
    requires op.Finish? && SameButClosed(p, n, op.now)
    ensures SameAnswer(Answer(p, op), Answer(n, op))
    ensures StaysAlike(p, n, Step(p, op), Step(n, op), op.now)
  {
    UseAlike(p, n, op.token, op.csrf, op.now);
  }

  lemma StepAlike(p: World, n: World, op: Op)
    requires SameButClosed(p, n, op.now) && Possible(p, op)
    ensures SameAnswer(Answer(p, op), Answer(n, KeepAll(op)))
    ensures StaysAlike(p, n, Next(p, op), FullNext(n, op), op.now)
  {
    match op
    case Begin(_, _, _, _, _) => BeginAlike(p, n, op);
    case Bind(_, _, _, _) => BindAlike(p, n, op);
    case Reissue(_, _, _, _) => ReissueAlike(p, n, op);
    case Finish(_, _, _, _, _, _) => FinishAlike(p, n, op);
  }

  /**
    As long as the clock never falls by more than a day and a millisecond, every
    call of a run gets the answer it would get if nothing was ever purged, and
    chains, bound emails and completions are the same.
  */
  lemma {:induction false} PurgeIsUnobservable(w: World, ops: seq<Op>)
    requires Inv(w) && FallsAtMost(Clocks(ops), PURGE_TOLERANCE) && Feasible(w, ops)
    ensures SameButDead(Run(w, ops), FullRun(w, ops), Clocks(ops))
    ensures ops != [] ==>
      SameAnswer(Answer(Run(w, ops[..|ops| - 1]), ops[|ops| - 1]),
                 Answer(FullRun(w, ops[..|ops| - 1]), KeepAll(ops[|ops| - 1])))
  {
    if ops != [] {
      var before, op := ops[..|ops| - 1], ops[|ops| - 1];
      var p, n := Run(w, before), FullRun(w, before);
      ClocksSnoc(ops, PURGE_TOLERANCE);
      PurgeIsUnobservable(w, before);
      FullRunKeepsInv(w, before);
      forall h | h in n.rows ensures h.Sha? && h.text in p.chain {
        assert RowSound(n, h, n.rows[h]);
      }
      LessDeadIsClosed(p.rows, n.rows, Life, Clocks(before), op.now);
      StepAlike(p, n, op);
      LessStaysDead(p.rows, n.rows, Next(p, op).rows, FullNext(n, op).rows, Life, Clocks(before), op.now);
    }
  }

  // ---------------------------------------------------- the exact tolerance

  /** The k-th call gets the answer it would get if nothing was ever purged. */
  ghost predicate AnsweredAlike(w: World, ops: seq<Op>, k: nat)
    requires k < |ops|
  {
    SameAnswer(Answer(Run(w, ops[..k]), ops[k]), Answer(FullRun(w, ops[..k]), KeepAll(ops[k])))
  }

  ghost predicate Unobservable(w: World, ops: seq<Op>) {
    forall k: nat :: k < |ops| ==> AnsweredAlike(w, ops, k)
  }

  ghost predicate ToleranceHolds(w: World, t: int) {
    forall ops :: FallsAtMost(Clocks(ops), t) && Feasible(w, ops) ==> Unobservable(w, ops)
  }

  lemma {:induction false} PrefixFits(w: World, ops: seq<Op>, k: nat, t: int)
    requires k <= |ops| && FallsAtMost(Clocks(ops), t) && Feasible(w, ops)
    ensures FallsAtMost(Clocks(ops[..k]), t) && Feasible(w, ops[..k])
  {
    if k < |ops| {
      ClocksSnoc(ops, t);
      PrefixFits(w, ops[..|ops| - 1], k, t);
      assert ops[..|ops| - 1][..k] == ops[..k];
    } else {
      assert ops[..k] == ops;
    }
  }

  lemma ToleratedIsUnobservable(w: World, ops: seq<Op>)
    requires Inv(w) && FallsAtMost(Clocks(ops), PURGE_TOLERANCE) && Feasible(w, ops)
    ensures Unobservable(w, ops)
  {
    forall k: nat | k < |ops| ensures AnsweredAlike(w, ops, k) {
      PrefixFits(w, ops, k + 1, PURGE_TOLERANCE);
      PurgeIsUnobservable(w, ops[..k + 1]);
      assert ops[..k + 1][..k] == ops[..k];
    }
  }

  /** The row's own call, on the world that a purge of it leaves and on the one that keeps it. */
  lemma PurgedIsRefused(v: World, purge: Op, late: Op)
    requires purge.Begin? && late.Bind? && purge.path == "/" && purge.doomed == {R.Sha(late.token)}
    requires IsSecret(purge.token) && IsSecret(purge.csrf) && IsSecret(late.token)
    requires IsSecret(late.csrf) && IsEmail(late.email)
    requires v.rows.Keys == {R.Sha(late.token)} && purge.token !in v.chain && purge.token != late.token
    requires var row := v.rows[R.Sha(late.token)];
      && row.csrfHash == R.Sha(late.csrf) && row.emailBinding.None? && row.consumedAt.None?
      && late.now < row.expiresAt < purge.now - DAY
    ensures Possible(v, purge)
    ensures Answer(Next(v, purge), late).Err? && Answer(FullNext(v, purge), late).Ok?
  {
  }

  lemma RunSnoc(ops: seq<Op>, op: Op)
    ensures Run(EMPTY, ops + [op]) == Next(Run(EMPTY, ops), op)
    ensures FullRun(EMPTY, ops + [op]) == FullNext(FullRun(EMPTY, ops), op)
    ensures Feasible(EMPTY, ops + [op]) <==> Feasible(EMPTY, ops) && Possible(Run(EMPTY, ops), op)
  {
    assert (ops + [op])[..|ops|] == ops;
  }

  /** A login begun at `at`, as both tables have it. */
  lemma LoginBegun(at: int, token: string) returns (first: Op)
    requires IsSecret(token)
    ensures first.now == at
    ensures Feasible(EMPTY, [first]) && Run(EMPTY, [first]) == FullRun(EMPTY, [first])
    ensures Run(EMPTY, [first]).chain.Keys == {token}
    ensures Run(EMPTY, [first]).rows == map[R.Sha(token) := Row("/", R.Sha(token), None, at, at + LOGIN_TTL, None)]
  {
    first := Begin("/", token, token, {}, at);
    RunSnoc([], first);
    assert [] + [first] == [first];
  }

  lemma LastTwoFall(start: seq<Op>, purge: Op, late: Op, at: int)
    requires forall i :: 0 <= i < |start| ==> start[i].now == at
    requires at <= late.now == purge.now - PURGE_TOLERANCE - 1
    ensures FallsAtMost(Clocks(start + [purge, late]), PURGE_TOLERANCE + 1)
  {
  }

  lemma LastTwoDiffer(start: seq<Op>, purge: Op, late: Op)
    requires Feasible(EMPTY, start) && Run(EMPTY, start) == FullRun(EMPTY, start)
    requires Possible(Run(EMPTY, start), purge) && late.Bind?
    requires Answer(Next(Run(EMPTY, start), purge), late).Err?
    requires Answer(FullNext(Run(EMPTY, start), purge), late).Ok?
    ensures Feasible(EMPTY, start + [purge, late]) && !Unobservable(EMPTY, start + [purge, late])
  {
    var ops := start + [purge, late];
    RunSnoc(start, purge);
    RunSnoc(start + [purge], late);
    assert start + [purge] + [late] == ops;
    assert ops[..|start| + 1] == start + [purge] && ops[|start| + 1] == late;
    assert !AnsweredAlike(EMPTY, ops, |start| + 1);
  }

  /** A purge a day and a millisecond past the deadline, and then a call a millisecond before the deadline. */
  lemma LatePurgeShows(at: int, token: string, other: string, email: string) returns (ops: seq<Op>)
    requires IsSecret(token) && IsSecret(other) && token != other && IsEmail(email)
    ensures FallsAtMost(Clocks(ops), PURGE_TOLERANCE + 1) && Feasible(EMPTY, ops) && !Unobservable(EMPTY, ops)
  {
    var first := LoginBegun(at, token);
    var purge := Begin("/", other, other, {R.Sha(token)}, at + LOGIN_TTL + PURGE_TOLERANCE);
    var late := Bind(token, token, email, at + LOGIN_TTL - 1);
    PurgedIsRefused(Run(EMPTY, [first]), purge, late);
    ops := [first] + [purge, late];
    LastTwoDiffer([first], purge, late);
    LastTwoFall([first], purge, late, at);
  }

  /**
    The purge is invisible on every run whose clock falls by at most t if and only if t is at most a
    day and a millisecond.
  */
  lemma PurgeToleranceIsExact(t: int)
    ensures ToleranceHolds(EMPTY, t) <==> t <= PURGE_TOLERANCE
  {
    if t <= PURGE_TOLERANCE {
      forall ops | FallsAtMost(Clocks(ops), t) && Feasible(EMPTY, ops) ensures Unobservable(EMPTY, ops) {
        ToleratedIsUnobservable(EMPTY, ops);
      }
    } else {
      var at: int :| true;
      var token, other := seq(43, _ => 'a'), seq(43, _ => 'b');
      assert token[0] != other[0];
      var ops := LatePurgeShows(at, token, other, seq(3, _ => 'c'));
      assert FallsAtMost(Clocks(ops), t);
    }
  }
}
