/** How long a refresh token family can live: thirty days between uses, ninety days in all. */
module RefreshLifetime {
  import opened Prelude

  const INACTIVITY_SECONDS := 30 * 24 * 60 * 60
  const ABSOLUTE_SECONDS := 90 * 24 * 60 * 60

  /** `iiat` is the family's first issue time, or None if the token carries no safe integer there. */
  function RefreshTokenTtl(iiat: Option<int>, nowSeconds: int): int {
    var initial := if iiat.Some? then iiat.value else nowSeconds;
    var remaining := initial + ABSOLUTE_SECONDS - nowSeconds;
    if remaining <= 0 then 1
    else if INACTIVITY_SECONDS <= remaining then INACTIVITY_SECONDS
    else remaining
  }

  /** Thirty days, or what is left of the ninety if that is less, and a second if nothing is left. */
  lemma TtlMeaning(iiat: Option<int>, nowSeconds: int)
    ensures var age := if iiat.None? then 0 else nowSeconds - iiat.value;
      var ttl := RefreshTokenTtl(iiat, nowSeconds);
      && (age >= 7_776_000 ==> ttl == 1)
      && (5_184_000 <= age < 7_776_000 ==> ttl == 7_776_000 - age)
      && (age < 5_184_000 ==> ttl == 2_592_000)
  {
  }

  function ExpiresAt(iiat: int, nowSeconds: int): int {
    nowSeconds + RefreshTokenTtl(Some(iiat), nowSeconds)
  }

  /** Each use replaces the token by one with the same `iiat`, strictly before the previous one expires. */
  ghost predicate Chain(iiat: int, uses: seq<int>) {
    && |uses| > 0 && uses[0] == iiat
    && (forall i :: 0 < i < |uses| ==> uses[i] < ExpiresAt(iiat, uses[i - 1]))
  }

  /**
    Whatever the clock does between uses, no token of the family outlives ninety
    days, no two uses lie thirty days apart, the one-second floor is never given
    out, and every expiry is the earlier of the two limits.
  */
  lemma {:induction false} FamilyLifetime(iiat: int, uses: seq<int>, i: nat)
    requires Chain(iiat, uses) && i < |uses|
    ensures uses[i] < iiat + ABSOLUTE_SECONDS
    ensures ExpiresAt(iiat, uses[i]) <= iiat + ABSOLUTE_SECONDS
    ensures ExpiresAt(iiat, uses[i]) <= uses[i] + INACTIVITY_SECONDS
    ensures ExpiresAt(iiat, uses[i]) == iiat + ABSOLUTE_SECONDS
      || ExpiresAt(iiat, uses[i]) == uses[i] + INACTIVITY_SECONDS
    ensures i > 0 ==> uses[i] - uses[i - 1] < INACTIVITY_SECONDS
  {
    if i > 0 {
      FamilyLifetime(iiat, uses, i - 1);
    }
  }

  /** The ninety days are used up exactly by a family that keeps refreshing. */
  lemma LifetimeIsReached(iiat: int) returns (uses: seq<int>)
    ensures Chain(iiat, uses) && ExpiresAt(iiat, uses[|uses| - 1]) == iiat + ABSOLUTE_SECONDS
  {
    uses := [iiat, iiat + INACTIVITY_SECONDS - 1, iiat + 2 * INACTIVITY_SECONDS - 2, iiat + 2 * INACTIVITY_SECONDS];
  }

  // ------------------------------------------------- the stored expiry, in milliseconds

  /** The row's expiry: the lifetime counts whole seconds, the row counts from the millisecond. */
  function StoredExpiry(iiat: int, nowMillis: int): int {
    nowMillis + 1000 * RefreshTokenTtl(Some(iiat), nowMillis / 1000)
  }

  ghost predicate StoredChain(iiat: int, uses: seq<int>) {
    && |uses| > 0 && uses[0] / 1000 == iiat
    && (forall i :: 0 < i < |uses| ==> uses[i - 1] <= uses[i] < StoredExpiry(iiat, uses[i - 1]))
  }

  /** A row dies less than a second after the family's ninety days exactly when it is written before they are over. */
  lemma RowDiesInTime(iiat: int, now: int)
    ensures StoredExpiry(iiat, now) < 1000 * (iiat + ABSOLUTE_SECONDS + 1) <==> now / 1000 < iiat + ABSOLUTE_SECONDS
  {
  }

  lemma {:induction false} LastUseIsLatest(iiat: int, uses: seq<int>, i: nat)
    requires StoredChain(iiat, uses) && i < |uses|
    ensures uses[i] <= uses[|uses| - 1]
    decreases |uses| - i
  {
    if i < |uses| - 1 {
      LastUseIsLatest(iiat, uses, i + 1);
    }
  }

  /**
    How far the row's expiry alone bounds a family: every row of it dies less
    than a second after the ninety days exactly when the last use falls before
    their end.
  */
  lemma StoredChainEndsInTime(iiat: int, uses: seq<int>)
    requires StoredChain(iiat, uses)
    ensures (forall i :: 0 <= i < |uses| ==> StoredExpiry(iiat, uses[i]) < 1000 * (iiat + ABSOLUTE_SECONDS + 1))
      <==> uses[|uses| - 1] / 1000 < iiat + ABSOLUTE_SECONDS
  {
    var last := uses[|uses| - 1];
    RowDiesInTime(iiat, last);
    if last / 1000 < iiat + ABSOLUTE_SECONDS {
      forall i | 0 <= i < |uses| ensures StoredExpiry(iiat, uses[i]) < 1000 * (iiat + ABSOLUTE_SECONDS + 1) {
        LastUseIsLatest(iiat, uses, i);
        RowDiesInTime(iiat, uses[i]);
      }
    }
  }

  /** With each use checked in whole seconds, a row dies less than a second after the family's ninety days. */
  lemma StoredExpiryOvershoot(iiat: int, uses: seq<int>, i: nat)
    requires i < |uses| && Chain(iiat, seq(|uses|, k requires 0 <= k < |uses| => uses[k] / 1000))
    ensures StoredExpiry(iiat, uses[i]) < 1000 * (iiat + ABSOLUTE_SECONDS + 1)
  {
    FamilyLifetime(iiat, seq(|uses|, k requires 0 <= k < |uses| => uses[k] / 1000), i);
  }

  /**
    The row's expiry alone would not end a family: from the last millisecond of
    the ninety days on, a token used just before its row dies meets the
    one-second floor again and again.
  */
  lemma {:induction false} StoredExpiryAloneNeverEnds(iiat: int, n: nat) returns (uses: seq<int>)
    ensures StoredChain(iiat, uses) && uses[|uses| - 1] == 1000 * (iiat + ABSOLUTE_SECONDS) - 1 + 999 * n
  {
    if n == 0 {
      var start := 1000 * iiat;
      var day := 24 * 60 * 60 * 1000;
      uses := [start, start + 29 * day, start + 58 * day, start + 87 * day, start + 90 * day - 1];
    } else {
      var before := StoredExpiryAloneNeverEnds(iiat, n - 1);
      uses := before + [before[|before| - 1] + 999];
      forall i | 0 < i < |uses| ensures uses[i - 1] <= uses[i] < StoredExpiry(iiat, uses[i - 1]) {
        if i < |before| {
          assert uses[i - 1] == before[i - 1] && uses[i] == before[i];
        }
      }
    }
  }
}
