/**
  OAuth bearer artifacts are stored under versioned digests of their raw values.
  `PostgresOidcAdapter` here carries a ghost map from raw values to rows; every
  method is proved to act on that map alone, so the hashed table behaves as a
  plain map keyed by raw tokens, across every change of keys that keeps its rows.
*/
module SecretArtifacts {
  import opened Prelude
  import opened GrantRegistry

  const MIN_LENGTH := 8
  const MAX_LENGTH := 4096
  const REFRESH := "RefreshToken"

  /** A position counted from the end of the key list, and the keyed digest. */
  datatype Lookup = Lookup(version: int, digest: Digest)

  predicate ValidKeys(keys: seq<string>) {
    1 <= |keys| <= 2 && forall k :: k in keys ==> |k| >= 32
  }

  predicate ValidValue(value: string) {
    MIN_LENGTH <= |value| <= MAX_LENGTH
  }

  function LookupAt(keys: seq<string>, i: nat, value: string): Lookup
    requires i < |keys|
  {
    Lookup(|keys| - i, Hmac(keys[i], value))
  }

  function Current(keys: seq<string>, value: string): Result<Lookup>
    requires ValidKeys(keys)
  {
    if ValidValue(value) then Ok(LookupAt(keys, 0, value)) else Err("invalid_oauth_artifact")
  }

  function Candidates(keys: seq<string>, value: string): (c: seq<Lookup>)
    ensures |c| == if ValidValue(value) then |keys| else 0
    ensures forall i :: 0 <= i < |c| ==> c[i] == LookupAt(keys, i, value)
  {
    if ValidValue(value) then seq(|keys|, i requires 0 <= i < |keys| => LookupAt(keys, i, value)) else []
  }

  predicate Matches(keys: seq<string>, value: string, lookup: Lookup) {
    exists i :: 0 <= i < |Candidates(keys, value)| && Candidates(keys, value)[i] == lookup
  }

  /** `matches` recognises exactly the digests of this very value under one of the keys. */
  lemma MatchesExactly(keys: seq<string>, value: string, lookup: Lookup)
    requires ValidKeys(keys)
    ensures Matches(keys, value, lookup) <==>
      && ValidValue(value)
      && 1 <= lookup.version <= |keys|
      && lookup.digest == Hmac(keys[|keys| - lookup.version], value)
  {
    if ValidValue(value) && 1 <= lookup.version <= |keys| {
      assert Candidates(keys, value)[|keys| - lookup.version] == LookupAt(keys, |keys| - lookup.version, value);
    }
  }

  // ------------------------------------------------------------ the tables

  datatype Payload = Payload(jti: Option<string>, grantId: Option<string>, body: string)

  datatype Row = Row(payload: Payload, expiresAt: Option<int>, consumedAt: Option<int>)

  datatype Slot = Slot(model: string, lookup: Lookup)

  /** The key of the plain map: a model and a raw value. */
  datatype Raw = Raw(model: string, value: string)

  predicate Unexpired(row: Row, now: int) {
    row.expiresAt.None? || row.expiresAt.value > now
  }

  predicate Usable(row: Row, now: int) {
    row.consumedAt.None? && Unexpired(row, now)
  }

  function RawOf(slot: Slot): Raw
    requires slot.lookup.digest.Hmac?
  {
    Raw(slot.model, slot.lookup.digest.text)
  }

  /** Where a value's row lies when it was stored under the i-th key of the list. */
  function SlotAt(keys: seq<string>, r: Raw, i: nat): Slot
    requires i < |keys|
  {
    Slot(r.model, LookupAt(keys, i, r.value))
  }

  /** Every value's row lies under its digest by the key at the position `home` remembers. */
  ghost predicate RowsPlaced(keys: seq<string>, table: map<Slot, Row>, plain: map<Raw, Row>, home: map<Raw, nat>)
    requires home.Keys == plain.Keys
  {
    forall r :: r in plain ==>
      && ValidValue(r.value)
      && home[r] < |keys|
      && SlotAt(keys, r, home[r]) in table
      && table[SlotAt(keys, r, home[r])] == plain[r]
  }

  /** The slot belongs to a value and is its home. */
  predicate Owned(keys: seq<string>, plain: map<Raw, Row>, home: map<Raw, nat>, s: Slot)
    requires home.Keys == plain.Keys
  {
    s.lookup.digest.Hmac? && RawOf(s) in plain && home[RawOf(s)] < |keys| && s == SlotAt(keys, RawOf(s), home[RawOf(s)])
  }

  /**
    The hashed table stands for `plain`: the same rows, each under the digest of
    its raw value by the key at the position `home` remembers, and nothing else.
  */
  ghost predicate Represents(keys: seq<string>, table: map<Slot, Row>, plain: map<Raw, Row>, home: map<Raw, nat>) {
    && home.Keys == plain.Keys
    && RowsPlaced(keys, table, plain, home)
    && (forall s :: s in table ==> Owned(keys, plain, home, s))
  }

  /** Among a value's candidate digests exactly the one at its home has a row. */
  lemma CandidateHits(keys: seq<string>, table: map<Slot, Row>, plain: map<Raw, Row>, home: map<Raw, nat>, r: Raw)
    requires Represents(keys, table, plain, home)
    ensures forall i :: 0 <= i < |keys| ==> (SlotAt(keys, r, i) in table <==> r in plain && i == home[r])
    ensures r in plain ==> ValidValue(r.value) && home[r] < |keys| && table[SlotAt(keys, r, home[r])] == plain[r]
  {
    forall i | 0 <= i < |keys| ensures SlotAt(keys, r, i) in table <==> r in plain && i == home[r] {
      if SlotAt(keys, r, i) in table {
        assert RawOf(SlotAt(keys, r, i)) == r;
      }
    }
  }

  ghost predicate StandsForAMap(keys: seq<string>, table: map<Slot, Row>) {
    exists plain, home :: Represents(keys, table, plain, home)
  }

  /** The value has a row, and not under the newest key. */
  predicate UnderOlder(home: map<Raw, nat>, r: Raw) {
    r in home && home[r] != 0
  }

  /** The key at position i counts as many places from the end of the next list as from the end of this one. */
  predicate Kept(keys: seq<string>, next: seq<string>, i: nat) {
    i < |keys| && |keys| - i <= |next| && next[|next| - (|keys| - i)] == keys[i]
  }

  predicate AllKept(keys: seq<string>, next: seq<string>, home: map<Raw, nat>) {
    forall r :: r in home ==> Kept(keys, next, home[r])
  }

  function MovedHome(keys: seq<string>, next: seq<string>, home: map<Raw, nat>): map<Raw, nat>
    requires AllKept(keys, next, home)
  {
    map r | r in home :: |next| - (|keys| - home[r])
  }

  // ------------------------------------------------------ the plain actions

  function Without(payload: Payload): Payload {
    payload.(jti := None)
  }

  function ExpireGrant(plain: map<Raw, Row>, grantId: string, now: int): map<Raw, Row> {
    map r | r in plain ::
      if r.model == REFRESH && plain[r].payload.grantId == Some(grantId) then plain[r].(expiresAt := Some(now))
      else plain[r]
  }

  /** A revocation expires the refresh tokens of a grant that the platform knows, and of no other. */
  function ExpireKnown(plain: map<Raw, Row>, registry: Registry, grantId: string, now: int): map<Raw, Row> {
    if grantId in registry.grants then ExpireGrant(plain, grantId, now) else plain
  }

  function DeleteGrant(plain: map<Raw, Row>, grantId: string): map<Raw, Row> {
    map r | r in plain && plain[r].payload.grantId != Some(grantId) :: plain[r]
  }

  datatype Consumption = Consumed | Missing | RateLimited | Replay(grantId: string)

  /** What `consume` decides about one value. */
  function Judge(plain: map<Raw, Row>, r: Raw, limiterAllows: bool, now: int): Consumption {
    if r !in plain then Missing
    else if Usable(plain[r], now) then
      if r.model == REFRESH && (plain[r].payload.grantId.None? || !limiterAllows) then RateLimited else Consumed
    else if r.model == REFRESH && plain[r].consumedAt.Some? && plain[r].payload.grantId.Some? then
      Replay(plain[r].payload.grantId.value)
    else Missing
  }

  function AfterConsume(plain: map<Raw, Row>, registry: Registry, r: Raw, c: Consumption, now: int): map<Raw, Row>
    requires c.Consumed? ==> r in plain
  {
    match c
    case Consumed => plain[r := plain[r].(consumedAt := Some(now))]
    case Replay(grantId) => ExpireKnown(plain, registry, grantId, now)
    case _ => plain
  }

  /**
    What a consume does. A fresh row is consumed, and then nothing else changes;
    but a refresh token is left as it was if it names no grant or the limiter
    refuses. A row that is missing, or expired unconsumed, is missing. A consumed
    refresh token that names a grant is a replay: the refresh tokens of that grant,
    if the platform knows it, expire now, and no other row changes.
  */
  lemma ConsumeMeaning(plain: map<Raw, Row>, registry: Registry, r: Raw, limiterAllows: bool, now: int)
    ensures var c := Judge(plain, r, limiterAllows, now);
      var after := AfterConsume(plain, registry, r, c, now);
      if r !in plain then c == Missing && after == plain
      else if plain[r].consumedAt == None && (plain[r].expiresAt == None || now < plain[r].expiresAt.value) then
        if r.model != "RefreshToken" || (limiterAllows && plain[r].payload.grantId != None)
        then c == Consumed && after == plain[r := plain[r].(consumedAt := Some(now))]
        else c == RateLimited && after == plain
      else if r.model == "RefreshToken" && plain[r].consumedAt != None && plain[r].payload.grantId != None then
        && c == Replay(plain[r].payload.grantId.value)
        && after.Keys == plain.Keys
        && forall x :: x in plain ==>
             after[x] == if x.model == "RefreshToken" && plain[x].payload.grantId == plain[r].payload.grantId
                            && c.grantId in registry.grants
                         then plain[x].(expiresAt := Some(now)) else plain[x]
      else c == Missing && after == plain
  {
  }

  // ------------------------------------------------------------ the adapter

  class PostgresOidcAdapter {
    var keys: seq<string>
    var table: map<Slot, Row>
    var registry: Registry
    ghost var plain: map<Raw, Row>
    ghost var home: map<Raw, nat>

    ghost predicate Valid()
      reads this
    {
      ValidKeys(keys) && Represents(keys, table, plain, home) && Linked(registry)
    }

    constructor (keys: seq<string>, registry: Registry)
      requires 1 <= |keys| <= 2 && (forall k :: k in keys ==> |k| >= 32)
      requires Linked(registry)
      ensures Valid() && plain == map[] && this.registry == registry && this.keys == keys
    {
      this.keys := keys;
      this.registry := registry;
      table := map[];
      plain := map[];
      home := map[];
    }

    /**
      The service starts over the same table with another key list. Either every row is kept, or the
      table stands for no map.
    */
    method Rotate(next: seq<string>)
      requires Valid() && 1 <= |next| <= 2 && forall k :: k in next ==> |k| >= 32
      modifies this`keys, this`home
      ensures keys == next
      ensures AllKept(old(keys), next, old(home)) ==> Valid() && home == MovedHome(old(keys), next, old(home))
      ensures !AllKept(old(keys), next, old(home)) ==> !StandsForAMap(next, table)
    {
      KeyChangeIsExact(keys, next, table, plain, home);
      if AllKept(keys, next, home) {
        RotateRepresents(keys, next, table, plain, home);
        home := MovedHome(keys, next, home);
      }
      keys := next;
    }

    /**
      The value's row under the newest key is written. A value that has a row
      under the older key then has two, and the table stands for no map.
    */
    method Upsert(r: Raw, payload: Payload, expiresIn: Option<int>, now: int) returns (result: Result<()>)
      requires Valid()
      modifies this`table, this`plain, this`home
      ensures result.Ok? <==> 8 <= |r.value| <= 4096
      ensures result.Ok? ==> table == old(table)[
        Slot(r.model, Lookup(|keys|, Hmac(keys[0], r.value)))
          := Row(payload.(jti := None), if expiresIn == None then None else Some(now + expiresIn.value * 1_000_000),
                 None)]
      ensures result.Err? ==> Valid() && table == old(table) && plain == old(plain) && home == old(home)
      ensures result.Ok? ==> table == old(table)[SlotAt(keys, r, 0) := NewRow(payload, expiresIn, now)]
      ensures result.Ok? && !UnderOlder(old(home), r) ==>
        Valid() && plain == old(plain)[r := NewRow(payload, expiresIn, now)] && home == old(home)[r := 0]
      ensures result.Ok? && UnderOlder(old(home), r) ==> !StandsForAMap(keys, table)
    {
      var lookup := Current(keys, r.value);
      if lookup.Err? {
        return Err(lookup.error);
      }
      WriteRow(r, lookup.value, NewRow(payload, expiresIn, now));
      result := Ok(());
    }

    /** The INSERT, or the UPDATE of the row in its place. */
    method WriteRow(r: Raw, lookup: Lookup, row: Row)
      requires Valid() && ValidValue(r.value) && lookup == LookupAt(keys, 0, r.value)
      modifies this`table, this`plain, this`home
      ensures table == old(table)[SlotAt(keys, r, 0) := row]
      ensures !UnderOlder(old(home), r) ==> Valid() && plain == old(plain)[r := row] && home == old(home)[r := 0]
      ensures UnderOlder(old(home), r) ==> !StandsForAMap(keys, table)
    {
      if UnderOlder(home, r) {
        TwiceStandsForNone(keys, table, plain, home, r, row);
      } else {
        UpsertRepresents(keys, table, plain, home, r, row);
        plain := plain[r := row];
        home := home[r := 0];
      }
      table := table[Slot(r.model, lookup) := row];
    }

    /** The stored payload with its own value put back, and the second it was consumed at. */
    method Find(r: Raw, now: int) returns (found: Option<(Payload, Option<int>)>)
      requires Valid()
      ensures found == if r in plain && Unexpired(plain[r], now)
        then Some((plain[r].payload.(jti := Some(r.value)), ConsumedSecond(plain[r])))
        else None
      ensures found.Some? <==> r in plain && (plain[r].expiresAt == None || now < plain[r].expiresAt.value)
      ensures found.Some? ==>
        && found.value.0 == plain[r].payload.(jti := Some(r.value))
        && (found.value.1.Some? <==> plain[r].consumedAt.Some?)
        && (found.value.1.Some? ==> found.value.1.value == plain[r].consumedAt.value / 1_000_000)
    {
      var candidates := Candidates(keys, r.value);
      CandidateHits(keys, table, plain, home, r);
      for i := 0 to |candidates|
        invariant forall j :: 0 <= j < i && SlotAt(keys, r, j) in table ==> !Unexpired(table[SlotAt(keys, r, j)], now)
      {
        var slot := Slot(r.model, candidates[i]);
        if slot in table && Unexpired(table[slot], now) {
          return Some((table[slot].payload.(jti := Some(r.value)), ConsumedSecond(table[slot])));
        }
      }
      found := None;
    }

    method Destroy(r: Raw)
      requires Valid()
      modifies this`table, this`plain, this`home
      ensures Valid() && plain == old(plain) - {r} && home == old(home) - {r}
    {
      var candidates := Candidates(keys, r.value);
      var left := table;
      for i := 0 to |candidates|
        invariant left == table - SlotsBefore(keys, r, i)
      {
        left := left - {Slot(r.model, candidates[i])};
      }
      CandidateHits(keys, table, plain, home, r);
      DestroyRepresents(keys, table, left, plain, home, r, |candidates|);
      table := left;
      plain := plain - {r};
      home := home - {r};
    }

    method Consume(r: Raw, limiterAllows: bool, now: int) returns (c: Consumption)
      requires Valid()
      modifies this`table, this`plain, this`registry
      ensures Valid()
      ensures c == Judge(old(plain), r, limiterAllows, now)
      ensures plain == AfterConsume(old(plain), old(registry), r, c, now)
      ensures (r in old(plain) && old(plain)[r].consumedAt == None
               && (old(plain)[r].expiresAt == None || now < old(plain)[r].expiresAt.value)) ==>
        if r.model != "RefreshToken" || (limiterAllows && old(plain)[r].payload.grantId != None) then
          c == Consumed && plain == old(plain)[r := old(plain)[r].(consumedAt := Some(now))]
            && registry == old(registry)
        else
          c == RateLimited && plain == old(plain) && table == old(table) && registry == old(registry)
      ensures r !in old(plain) || (old(plain)[r].consumedAt == None && old(plain)[r].expiresAt != None
                                   && old(plain)[r].expiresAt.value <= now) ==>
        c == Missing && plain == old(plain) && table == old(table) && registry == old(registry)
      ensures registry == if c.Replay? then RevokeRefreshGrant(old(registry), c.grantId, "refresh_replay")
        else old(registry)
    {
      ConsumeMeaning(plain, registry, r, limiterAllows, now);
      c := ConsumeUsable(r, limiterAllows, now);
      if c.Missing? && r.model == REFRESH {
        c := DetectReplay(r, now);
      }
    }

    /** The first loop: the value's usable row, if any, is charged and consumed. */
    method ConsumeUsable(r: Raw, limiterAllows: bool, now: int) returns (c: Consumption)
      requires Valid()
      modifies this`table, this`plain
      ensures Valid()
      ensures c == if r in old(plain) && Usable(old(plain)[r], now) then Judge(old(plain), r, limiterAllows, now)
        else Missing
      ensures plain == AfterConsume(old(plain), old(registry), r, c, now)
      ensures !c.Consumed? ==> table == old(table)
    {
      var candidates := Candidates(keys, r.value);
      CandidateHits(keys, table, plain, home, r);
      for i := 0 to |candidates|
        invariant unchanged(this)
        invariant r in plain && home[r] < i ==> !Usable(plain[r], now)
      {
        var slot := Slot(r.model, candidates[i]);
        assert slot == SlotAt(keys, r, i);
        if slot in table && Usable(table[slot], now) {
          if r.model == REFRESH && (table[slot].payload.grantId.None? || !limiterAllows) {
            return RateLimited;
          }
          MarkConsumed(r, slot, now);
          return Consumed;
        }
      }
      c := Missing;
    }

    /** A consumed row that names a grant revokes it. */
    method DetectReplay(r: Raw, now: int) returns (c: Consumption)
      requires Valid()
      modifies this`table, this`plain, this`registry
      ensures Valid()
      ensures c == if r in old(plain) && Replayed(old(plain)[r]) then Replay(old(plain)[r].payload.grantId.value)
        else Missing
      ensures plain == AfterConsume(old(plain), old(registry), r, c, now)
      ensures !c.Replay? ==> table == old(table)
      ensures registry == if c.Replay? then RevokeRefreshGrant(old(registry), c.grantId, "refresh_replay")
        else old(registry)
    {
      var grantId := ReplayedGrant(r);
      if grantId.None? {
        return Missing;
      }
      RevokeFamily(grantId.value, "refresh_replay", now);
      c := Replay(grantId.value);
    }

    /** The second loop: the grant named by a consumed row of the value. */
    method ReplayedGrant(r: Raw) returns (grantId: Option<string>)
      requires Valid()
      ensures grantId == if r in plain && Replayed(plain[r]) then plain[r].payload.grantId else None
    {
      var candidates := Candidates(keys, r.value);
      CandidateHits(keys, table, plain, home, r);
      for i := 0 to |candidates|
        invariant r in plain && home[r] < i ==> !Replayed(plain[r])
      {
        var slot := Slot(r.model, candidates[i]);
        assert slot == SlotAt(keys, r, i);
        if slot in table && Replayed(table[slot]) {
          return table[slot].payload.grantId;
        }
      }
      grantId := None;
    }

    /** `reason` is what the provider's context resolves: a replay or a revocation request. */
    method RevokeByGrantId(model: string, grantId: string, reason: string, now: int)
      requires Valid()
      modifies this`table, this`plain, this`home, this`registry
      ensures Valid()
      ensures plain == DeleteGrant(old(plain), grantId)
      ensures home == map r | r in plain :: old(home)[r]
      ensures registry == if model == REFRESH then RevokeRefreshGrant(old(registry), grantId, reason) else old(registry)
    {
      if model == REFRESH {
        RevokeFamily(grantId, reason, now);
        DeleteAfterExpire(old(plain), grantId, now);
      }
      DeleteFamily(grantId);
    }

    /** The UPDATE that marks one row consumed. */
    method MarkConsumed(r: Raw, slot: Slot, now: int)
      requires Valid() && r in plain && slot == SlotAt(keys, r, home[r])
      modifies this`table, this`plain
      ensures Valid() && plain == old(plain)[r := old(plain)[r].(consumedAt := Some(now))]
    {
      ConsumeRepresents(keys, table, plain, home, r, now);
      table := table[slot := table[slot].(consumedAt := Some(now))];
      plain := plain[r := plain[r].(consumedAt := Some(now))];
    }

    /** oauth.revoke_refresh_grant over both schemas. */
    method RevokeFamily(grantId: string, reason: string, now: int)
      requires Valid()
      modifies this`table, this`plain, this`registry
      ensures Valid()
      ensures plain == ExpireKnown(old(plain), old(registry), grantId, now)
      ensures registry == RevokeRefreshGrant(old(registry), grantId, reason)
    {
      if grantId !in registry.grants {
        return;
      }
      ExpireRepresents(keys, table, plain, home, grantId, now);
      registry := RevokeRefreshGrant(registry, grantId, reason);
      table := ExpireSlots(table, grantId, now);
      plain := ExpireGrant(plain, grantId, now);
    }

    method DeleteFamily(grantId: string)
      requires Valid()
      modifies this`table, this`plain, this`home
      ensures Valid()
      ensures plain == DeleteGrant(old(plain), grantId)
      ensures home == map r | r in plain :: old(home)[r]
    {
      DeleteRepresents(keys, table, plain, home, grantId);
      table := DeleteSlots(table, grantId);
      plain := DeleteGrant(plain, grantId);
      home := map r | r in plain :: home[r];
    }
  }

  function NewRow(payload: Payload, expiresIn: Option<int>, now: int): Row {
    Row(payload.(jti := None), if expiresIn.None? then None else Some(now + expiresIn.value * SECOND), None)
  }

  function ConsumedSecond(row: Row): Option<int> {
    if row.consumedAt.None? then None else Some(row.consumedAt.value / SECOND)
  }

  predicate Replayed(row: Row) {
    row.consumedAt.Some? && row.payload.grantId.Some?
  }

  function ExpireSlots(table: map<Slot, Row>, grantId: string, now: int): map<Slot, Row> {
    map s | s in table ::
      if s.model == REFRESH && table[s].payload.grantId == Some(grantId) then table[s].(expiresAt := Some(now))
      else table[s]
  }

  function DeleteSlots(table: map<Slot, Row>, grantId: string): map<Slot, Row> {
    map s | s in table && table[s].payload.grantId != Some(grantId) :: table[s]
  }

  // ----------------------------------------------- representation preserved

  /** A kept row lies in the table under its place in the next list. */
  lemma KeptSlot(keys: seq<string>, next: seq<string>, r: Raw, i: nat)
    requires Kept(keys, next, i)
    ensures SlotAt(next, r, |next| - (|keys| - i)) == SlotAt(keys, r, i)
  {
  }

  lemma RotateRepresents(keys: seq<string>, next: seq<string>, table: map<Slot, Row>, plain: map<Raw, Row>,
                         home: map<Raw, nat>)
    requires Represents(keys, table, plain, home) && AllKept(keys, next, home)
    ensures Represents(next, table, plain, MovedHome(keys, next, home))
  {
    var moved := MovedHome(keys, next, home);
    forall r | r in plain ensures SlotAt(next, r, moved[r]) == SlotAt(keys, r, home[r]) {
      KeptSlot(keys, next, r, home[r]);
    }
    forall s | s in table ensures Owned(next, plain, moved, s) {
      assert Owned(keys, plain, home, s);
    }
  }

  lemma SlotsDiffer(keys: seq<string>, x: Raw, i: nat, y: Raw, j: nat)
    requires i < |keys| && j < |keys| && x != y
    ensures SlotAt(keys, x, i) != SlotAt(keys, y, j)
  {
  }

  lemma UpsertKeepsRaw(keys: seq<string>, table: map<Slot, Row>, plain: map<Raw, Row>, home: map<Raw, nat>, r: Raw,
                       row: Row, x: Raw)
    requires |keys| > 0 && Represents(keys, table, plain, home) && x in plain && x != r
    ensures var slot := SlotAt(keys, x, home[x]);
      slot in table[SlotAt(keys, r, 0) := row] && table[SlotAt(keys, r, 0) := row][slot] == plain[x]
  {
    SlotsDiffer(keys, x, home[x], r, 0);
  }

  lemma UpsertOwns(keys: seq<string>, table: map<Slot, Row>, plain: map<Raw, Row>, home: map<Raw, nat>, r: Raw,
                   row: Row, s: Slot)
    requires |keys| > 0 && Represents(keys, table, plain, home) && (r in plain ==> home[r] == 0)
    requires s in table || s == SlotAt(keys, r, 0)
    ensures Owned(keys, plain[r := row], home[r := 0], s)
  {
    if s in table {
      assert Owned(keys, plain, home, s);
    }
  }

  lemma UpsertRepresents(keys: seq<string>, table: map<Slot, Row>, plain: map<Raw, Row>, home: map<Raw, nat>, r: Raw,
                         row: Row)
    requires ValidKeys(keys) && Represents(keys, table, plain, home) && ValidValue(r.value)
    requires r in plain ==> home[r] == 0
    ensures Represents(keys, table[SlotAt(keys, r, 0) := row], plain[r := row], home[r := 0])
  {
    forall x | x in plain && x != r
      ensures SlotAt(keys, x, home[x]) in table[SlotAt(keys, r, 0) := row]
        && table[SlotAt(keys, r, 0) := row][SlotAt(keys, x, home[x])] == plain[x]
    {
      UpsertKeepsRaw(keys, table, plain, home, r, row, x);
    }
    var table', plain', home' := table[SlotAt(keys, r, 0) := row], plain[r := row], home[r := 0];
    forall s | s in table' ensures Owned(keys, plain', home', s) {
      UpsertOwns(keys, table, plain, home, r, row, s);
    }
  }

  lemma TwiceStandsForNone(keys: seq<string>, table: map<Slot, Row>, plain: map<Raw, Row>, home: map<Raw, nat>, r: Raw,
                           row: Row)
    requires ValidKeys(keys) && Represents(keys, table, plain, home) && ValidValue(r.value) && UnderOlder(home, r)
    ensures !StandsForAMap(keys, table[SlotAt(keys, r, 0) := row])
  {
    CandidateHits(keys, table, plain, home, r);
    var table' := table[SlotAt(keys, r, 0) := row];
    assert SlotAt(keys, r, 0) in table' && SlotAt(keys, r, home[r]) in table';
  }

  /**
    The refinement survives an upsert exactly when the value has no row under the
    older key: otherwise two rows hold it, and it could be used twice.
  */
  lemma UpsertAcrossRotation(keys: seq<string>, table: map<Slot, Row>, plain: map<Raw, Row>, home: map<Raw, nat>,
                             r: Raw, row: Row)
    requires ValidKeys(keys) && Represents(keys, table, plain, home) && ValidValue(r.value)
    ensures StandsForAMap(keys, table[SlotAt(keys, r, 0) := row]) <==> !UnderOlder(home, r)
    ensures !UnderOlder(home, r) ==> Represents(keys, table[SlotAt(keys, r, 0) := row], plain[r := row], home[r := 0])
  {
    if UnderOlder(home, r) {
      TwiceStandsForNone(keys, table, plain, home, r, row);
    } else {
      UpsertRepresents(keys, table, plain, home, r, row);
    }
  }

  /** So it happens: a value stored under the older key and stored again has two rows, and stands for no map. */
  lemma StoredTwiceBreaks(keys: seq<string>, r: Raw, row: Row)
    requires ValidKeys(keys) && |keys| == 2 && ValidValue(r.value)
    ensures Represents(keys, map[SlotAt(keys, r, 1) := row], map[r := row], map[r := 1])
    ensures !StandsForAMap(keys, map[SlotAt(keys, r, 1) := row][SlotAt(keys, r, 0) := row])
  {
    UpsertAcrossRotation(keys, map[SlotAt(keys, r, 1) := row], map[r := row], map[r := 1], r, row);
  }

  lemma ConsumeRepresents(keys: seq<string>, table: map<Slot, Row>, plain: map<Raw, Row>, home: map<Raw, nat>, r: Raw,
                          now: int)
    requires Represents(keys, table, plain, home) && r in plain
    ensures var slot := SlotAt(keys, r, home[r]);
      Represents(keys, table[slot := table[slot].(consumedAt := Some(now))],
                 plain[r := plain[r].(consumedAt := Some(now))], home)
  {
    forall x | x in plain && x != r ensures SlotAt(keys, x, home[x]) != SlotAt(keys, r, home[r]) {}
  }

  lemma ExpireRepresents(keys: seq<string>, table: map<Slot, Row>, plain: map<Raw, Row>, home: map<Raw, nat>,
                         grantId: string, now: int)
    requires Represents(keys, table, plain, home)
    ensures Represents(keys, ExpireSlots(table, grantId, now), ExpireGrant(plain, grantId, now), home)
  {
  }

  /** The slots of a value under the first n keys. */
  function SlotsBefore(keys: seq<string>, r: Raw, n: nat): set<Slot>
    requires n <= |keys|
  {
    if n == 0 then {} else SlotsBefore(keys, r, n - 1) + {SlotAt(keys, r, n - 1)}
  }

  lemma {:induction false} SlotsBeforeMembers(keys: seq<string>, r: Raw, n: nat)
    requires n <= |keys|
    ensures forall i :: 0 <= i < n ==> SlotAt(keys, r, i) in SlotsBefore(keys, r, n)
    ensures forall s :: s in SlotsBefore(keys, r, n) ==> s.lookup.digest.Hmac? && RawOf(s) == r
  {
    if n > 0 {
      SlotsBeforeMembers(keys, r, n - 1);
    }
  }

  lemma DestroyRepresents(keys: seq<string>, table: map<Slot, Row>, left: map<Slot, Row>, plain: map<Raw, Row>,
                          home: map<Raw, nat>, r: Raw, n: nat)
    requires Represents(keys, table, plain, home) && n <= |keys|
    requires left == table - SlotsBefore(keys, r, n) && (r in plain ==> n == |keys|)
    ensures Represents(keys, left, plain - {r}, home - {r})
  {
    SlotsBeforeMembers(keys, r, n);
    forall s | s in left ensures Owned(keys, plain - {r}, home - {r}, s) {
      assert Owned(keys, plain, home, s);
    }
  }

  lemma DeleteRepresents(keys: seq<string>, table: map<Slot, Row>, plain: map<Raw, Row>, home: map<Raw, nat>,
                         grantId: string)
    requires Represents(keys, table, plain, home)
    ensures Represents(keys, DeleteSlots(table, grantId), DeleteGrant(plain, grantId),
                       map r | r in DeleteGrant(plain, grantId) :: home[r])
  {
  }

  lemma DeleteAfterExpire(plain: map<Raw, Row>, grantId: string, now: int)
    ensures DeleteGrant(ExpireGrant(plain, grantId, now), grantId) == DeleteGrant(plain, grantId)
  {
  }

  // ------------------------------------------------------- changes of keys

  predicate FoundUnder(keys: seq<string>, table: map<Slot, Row>, r: Raw) {
    exists i: nat :: i < |keys| && SlotAt(keys, r, i) in table
  }

  /**
    Whatever the next key list: a stored value is found under one of its keys
    exactly when its own key counts as many places from the end as before.
  */
  lemma FoundAfterChange(keys: seq<string>, next: seq<string>, table: map<Slot, Row>, plain: map<Raw, Row>,
                         home: map<Raw, nat>, r: Raw)
    requires Represents(keys, table, plain, home) && r in plain
    ensures FoundUnder(next, table, r) <==> Kept(keys, next, home[r])
  {
    CandidateHits(keys, table, plain, home, r);
    if Kept(keys, next, home[r]) {
      KeptSlot(keys, next, r, home[r]);
    }
    if FoundUnder(next, table, r) {
      var i: nat :| i < |next| && SlotAt(next, r, i) in table;
      assert Owned(keys, plain, home, SlotAt(next, r, i)) && RawOf(SlotAt(next, r, i)) == r;
    }
  }

  /** A row that stands for something under another list lies there under one of that list's keys. */
  lemma StandingRowIsKept(keys: seq<string>, next: seq<string>, table: map<Slot, Row>, plain: map<Raw, Row>,
                          home: map<Raw, nat>, r: Raw)
    requires Represents(keys, table, plain, home) && r in plain && StandsForAMap(next, table)
    ensures Kept(keys, next, home[r])
  {
    var other, place :| Represents(next, table, other, place);
    assert Owned(next, other, place, SlotAt(keys, r, home[r]));
    assert RawOf(SlotAt(keys, r, home[r])) == r;
    FoundAfterChange(keys, next, table, plain, home, r);
  }

  /**
    Whatever the next key list: the table stands for the same map, or for any map
    at all, exactly when the key of every row is kept in its place from the end.
  */
  lemma KeyChangeIsExact(keys: seq<string>, next: seq<string>, table: map<Slot, Row>, plain: map<Raw, Row>,
                         home: map<Raw, nat>)
    requires Represents(keys, table, plain, home)
    ensures (exists moved :: Represents(next, table, plain, moved)) <==> AllKept(keys, next, home)
    ensures StandsForAMap(next, table) <==> AllKept(keys, next, home)
  {
    if AllKept(keys, next, home) {
      RotateRepresents(keys, next, table, plain, home);
    }
    if StandsForAMap(next, table) {
      forall r | r in home ensures Kept(keys, next, home[r]) {
        StandingRowIsKept(keys, next, table, plain, home, r);
      }
    }
  }

  predicate Suffix(keys: seq<string>, next: seq<string>) {
    |keys| <= |next| && next[|next| - |keys|..] == keys
  }

  /** The change of keys loses no row of any table. */
  ghost predicate SafeChange(keys: seq<string>, next: seq<string>) {
    forall table, plain, home :: Represents(keys, table, plain, home) ==>
      exists moved :: Represents(next, table, plain, moved)
  }

  lemma OneRow(keys: seq<string>, r: Raw, row: Row, i: nat)
    requires i < |keys| && ValidValue(r.value)
    ensures Represents(keys, map[SlotAt(keys, r, i) := row], map[r := row], map[r := i])
  {
  }

  lemma SafeChangeKeepsEachKey(keys: seq<string>, next: seq<string>, r: Raw, row: Row, i: nat)
    requires SafeChange(keys, next) && i < |keys| && ValidValue(r.value)
    ensures Kept(keys, next, i)
  {
    var table, plain, home := map[SlotAt(keys, r, i) := row], map[r := row], map[r := i];
    OneRow(keys, r, row, i);
    assert Represents(keys, table, plain, home);
    KeyChangeIsExact(keys, next, table, plain, home);
    assert r in home;
  }

  lemma SuffixKeepsAll(keys: seq<string>, next: seq<string>, table: map<Slot, Row>, plain: map<Raw, Row>,
                       home: map<Raw, nat>)
    requires Represents(keys, table, plain, home) && Suffix(keys, next)
    ensures AllKept(keys, next, home)
  {
    forall r | r in home ensures Kept(keys, next, home[r]) {
      assert next[|next| - |keys|..][home[r]] == keys[home[r]];
    }
  }

  /** What an operator can check before the change: no table loses a row exactly when keys are only added in front. */
  lemma SafeChangeIsSuffix(keys: seq<string>, next: seq<string>)
    requires ValidKeys(keys)
    ensures SafeChange(keys, next) <==> Suffix(keys, next)
  {
    if Suffix(keys, next) {
      forall table, plain, home | Represents(keys, table, plain, home)
        ensures exists moved :: Represents(next, table, plain, moved)
      {
        SuffixKeepsAll(keys, next, table, plain, home);
        KeyChangeIsExact(keys, next, table, plain, home);
      }
    }
    if SafeChange(keys, next) {
      var r, row := Raw(REFRESH, seq(MIN_LENGTH, _ => 'a')), Row(Payload(None, None, ""), None, None);
      forall i: nat | i < |keys| ensures Kept(keys, next, i) {
        SafeChangeKeepsEachKey(keys, next, r, row, i);
      }
      assert Kept(keys, next, 0);
      forall i | 0 <= i < |keys| ensures next[|next| - |keys|..][i] == keys[i] {
        assert Kept(keys, next, i);
      }
    }
  }

  /** So the third key of a service hides every row stored before: the versions of both older keys have moved. */
  lemma SecondRotationForgets(key: string, newer: string, older: string, table: map<Slot, Row>, plain: map<Raw, Row>,
                              home: map<Raw, nat>, r: Raw)
    requires key != newer && newer != older
    requires Represents([newer, older], table, plain, home)
    ensures !FoundUnder([key, newer], table, r)
  {
    if r in plain {
      FoundAfterChange([newer, older], [key, newer], table, plain, home, r);
    } else {
      NeverFound([newer, older], [key, newer], table, plain, home, r);
    }
  }

  /** Retiring the old key hides every row too, also those stored under the key that stays. */
  lemma RetirementForgets(newer: string, older: string, table: map<Slot, Row>, plain: map<Raw, Row>,
                          home: map<Raw, nat>,
                          r: Raw)
    requires newer != older && Represents([newer, older], table, plain, home)
    ensures !FoundUnder([newer], table, r)
  {
    if r in plain {
      FoundAfterChange([newer, older], [newer], table, plain, home, r);
    } else {
      NeverFound([newer, older], [newer], table, plain, home, r);
    }
  }

  lemma NeverFound(keys: seq<string>, next: seq<string>, table: map<Slot, Row>, plain: map<Raw, Row>,
                   home: map<Raw, nat>,
                   r: Raw)
    requires Represents(keys, table, plain, home) && r !in plain
    ensures !FoundUnder(next, table, r)
  {
    forall i: nat | i < |next| ensures SlotAt(next, r, i) !in table {
      assert RawOf(SlotAt(next, r, i)) == r;
    }
  }

  /** It happens: a row under the key that stays, found before the old key is retired and under no key after. */
  lemma KeptKeyLosesItsRow(newer: string, older: string, r: Raw, row: Row)
    requires newer != older && ValidValue(r.value)
    ensures FoundUnder([newer, older], map[SlotAt([newer, older], r, 0) := row], r)
    ensures !FoundUnder([newer], map[SlotAt([newer, older], r, 0) := row], r)
  {
    OneRow([newer, older], r, row, 0);
    RetirementForgets(newer, older, map[SlotAt([newer, older], r, 0) := row], map[r := row], map[r := 0], r);
    assert SlotAt([newer, older], r, 0) in map[SlotAt([newer, older], r, 0) := row];
  }
}
