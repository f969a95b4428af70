/**
  A whole run on the digest table, with any safe changes of keys in it, is the
  same run on the plain map: the same states and the same answers.
*/
module ArtifactRuns {
  import opened Prelude
  import opened GrantRegistry
  import opened SecretArtifacts
  import opened RefreshReplay

  datatype Answer = Stored(ok: bool) | Used(c: Consumption) | Looked(found: Option<(Payload, Option<int>)>) | Done

  /** What the plain map answers. */
  function AnswerOf(plain: map<Raw, Row>, op: RefreshReplay.Op): Answer {
    match op
    case Upsert(r, _, _, _) => Stored(ValidValue(r.value))
    case Consume(r, limiterAllows, now) => Used(Judge(plain, r, limiterAllows, now))
    case Find(r, now) =>
      Looked(if r in plain && Unexpired(plain[r], now)
             then Some((plain[r].payload.(jti := Some(r.value)), ConsumedSecond(plain[r]))) else None)
    case _ => Done
  }

  /** A value about to be stored for the first time is not in the map, under whatever key. */
  lemma UnissuedIsAbsent(registry: Registry, ops: seq<RefreshReplay.Op>, i: nat)
    requires Linked(registry) && FreshValues(ops) && i < |ops| && ops[i].Upsert?
    ensures ops[i].r !in Run(World(map[], registry), ops[..i]).plain
  {
    assert forall j, k :: 0 <= j < k < i ==> ops[..i][j] == ops[j] && ops[..i][k] == ops[k];
    UsesRecorded(registry, ops[..i], ops[i].r);
    assert !Issued(ops[..i], ops[i].r);
  }

  lemma RunSnoc(w: World, ops: seq<RefreshReplay.Op>, i: nat)
    requires Linked(w.registry) && i < |ops|
    ensures Run(w, ops[..i + 1]) == RefreshReplay.Next(Run(w, ops[..i]), ops[i])
  {
    assert ops[..i + 1][..i] == ops[..i];
  }

  /** One call on the adapter, or one transaction of the platform on the registry beside it. */
  method Perform(adapter: PostgresOidcAdapter, op: RefreshReplay.Op) returns (answer: Answer)
    requires adapter.Valid() && (op.Upsert? && op.r in adapter.plain ==> adapter.home[op.r] == 0)
    modifies adapter
    ensures adapter.Valid() && adapter.keys == old(adapter.keys)
    ensures World(adapter.plain, adapter.registry)
      == RefreshReplay.Next(World(old(adapter.plain), old(adapter.registry)), op)
    ensures answer == AnswerOf(old(adapter.plain), op)
  {
    answer := Done;
    match op {
      case Upsert(r, payload, expiresIn, now) =>
        var result := adapter.Upsert(r, payload, expiresIn, now);
        answer := Stored(result.Ok?);
      case Consume(r, limiterAllows, now) =>
        var c := adapter.Consume(r, limiterAllows, now);
        answer := Used(c);
      case Destroy(r) => adapter.Destroy(r);
      case Find(r, now) =>
        var found := adapter.Find(r, now);
        answer := Looked(found);
      case RevokeGrant(model, grantId, reason, now) => adapter.RevokeByGrantId(model, grantId, reason, now);
      case Platform(step) =>
        NextAdvances(adapter.registry, step);
        adapter.registry := GrantRegistry.Next(adapter.registry, step);
    }
  }

  /** The answers of a run on the plain map. */
  ghost function AnswersOf(w: World, ops: seq<RefreshReplay.Op>): seq<Answer>
    requires Linked(w.registry)
  {
    if ops == [] then []
    else
      var k := |ops| - 1;
      AnswersOf(w, ops[..k]) + [AnswerOf(Run(w, ops[..k]).plain, ops[k])]
  }

  lemma AnswersSnoc(w: World, ops: seq<RefreshReplay.Op>, i: nat)
    requires Linked(w.registry) && i < |ops|
    ensures AnswersOf(w, ops[..i + 1]) == AnswersOf(w, ops[..i]) + [AnswerOf(Run(w, ops[..i]).plain, ops[i])]
  {
    assert ops[..i + 1][..i] == ops[..i];
  }

  /** The list in use before step i. */
  function KeysBefore(keys: seq<string>, lists: seq<seq<string>>, i: nat): seq<string>
    requires i <= |lists|
  {
    if i == 0 then keys else lists[i - 1]
  }

  /** Each list, in turn after `keys`, only adds keys in front of the one before. */
  predicate OnlyAdds(keys: seq<string>, lists: seq<seq<string>>) {
    forall i :: 0 <= i < |lists| ==> ValidKeys(lists[i]) && Suffix(KeysBefore(keys, lists, i), lists[i])
  }

  /** Step i of the run, for which the service starts again with the i-th key list. */
  method PerformStep(adapter: PostgresOidcAdapter, ops: seq<RefreshReplay.Op>, i: nat, next: seq<string>,
                     ghost registry: Registry) returns (answer: Answer)
    requires adapter.Valid() && Linked(registry) && FreshValues(ops) && i < |ops|
    requires ValidKeys(next) && Suffix(adapter.keys, next)
    requires World(adapter.plain, adapter.registry) == Run(World(map[], registry), ops[..i])
    modifies adapter
    ensures adapter.Valid() && adapter.keys == next
    ensures World(adapter.plain, adapter.registry) == Run(World(map[], registry), ops[..i + 1])
    ensures answer == AnswerOf(Run(World(map[], registry), ops[..i]).plain, ops[i])
  {
    SuffixKeepsAll(adapter.keys, next, adapter.table, adapter.plain, adapter.home);
    adapter.Rotate(next);
    if ops[i].Upsert? {
      UnissuedIsAbsent(registry, ops, i);
    }
    RunSnoc(World(map[], registry), ops, i);
    answer := Perform(adapter, ops[i]);
  }

  /**
    Performs the run on an empty adapter, starting it again with the next key list
    before every step. Values are stored once each, so no step meets a value under
    an older key, and nobody can tell the key changes from the answers.
  */
  method PerformAll(adapter: PostgresOidcAdapter, ops: seq<RefreshReplay.Op>, lists: seq<seq<string>>)
    returns (answers: seq<Answer>)
    requires adapter.Valid() && adapter.plain == map[] && FreshValues(ops)
    requires |lists| == |ops| && OnlyAdds(adapter.keys, lists)
    modifies adapter
    ensures adapter.Valid() && adapter.keys == KeysBefore(old(adapter.keys), lists, |lists|)
    ensures World(adapter.plain, adapter.registry) == Run(World(map[], old(adapter.registry)), ops)
    ensures answers == AnswersOf(World(map[], old(adapter.registry)), ops)
  {
    answers := [];
    ghost var start, first := World(map[], adapter.registry), adapter.keys;
    for i := 0 to |ops|
      invariant adapter.Valid() && adapter.keys == KeysBefore(first, lists, i)
      invariant World(adapter.plain, adapter.registry) == Run(start, ops[..i])
      invariant answers == AnswersOf(start, ops[..i])
    {
      AnswersSnoc(start, ops, i);
      var answer := PerformStep(adapter, ops, i, lists[i], start.registry);
      answers := answers + [answer];
    }
    assert ops[..|ops|] == ops;
  }
}
