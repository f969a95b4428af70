/**
  Native clients choose a loopback port at run time (section 7.3 of RFC 8252).
  The provider compares redirect URIs exactly, so an acceptable variant of a
  registered URI is pushed onto the client's list, in place, with a bound of
  eight variants. The list must never change the answer of the stateless rule.

  `parse` is the URL parser; every result holds for any parser.
*/
module LoopbackRedirects {
  import opened Prelude

  const MAX_VARIANTS := 8

  datatype Url = Url(
    protocol: string, hostname: string, port: string, username: string, password: string,
    pathname: string, search: string, hash: string)

  type Parser = string -> Option<Url>

  predicate Matches(parse: Parser, registered: string, candidate: string) {
    var expected, observed := parse(registered), parse(candidate);
    && expected.Some? && observed.Some?
    && expected.value.protocol == "http:"
    && expected.value.hostname == "127.0.0.1"
    && expected.value.port == ""
    && expected.value.username == ""
    && expected.value.password == ""
    && observed.value.protocol == expected.value.protocol
    && observed.value.hostname == expected.value.hostname
    && observed.value.port != ""
    && observed.value.username == ""
    && observed.value.password == ""
    && observed.value.pathname == expected.value.pathname
    && observed.value.search == expected.value.search
    && observed.value.hash == ""
    && expected.value.hash == ""
  }

  /**
    The two URIs are the same plain loopback URL without user or fragment, but that only the
    candidate names a port.
  */
  lemma MatchesMeaning(parse: Parser, registered: string, candidate: string)
    ensures Matches(parse, registered, candidate) <==>
      exists port, path, query :: port != ""
        && parse(registered) == Some(Url("http:", "127.0.0.1", "", "", "", path, query, ""))
        && parse(candidate) == Some(Url("http:", "127.0.0.1", port, "", "", path, query, ""))
  {
    if Matches(parse, registered, candidate) {
      var u := parse(candidate).value;
      assert parse(candidate) == Some(Url("http:", "127.0.0.1", u.port, "", "", u.pathname, u.search, ""));
    }
  }

  predicate IsVariant(parse: Parser, uris: seq<string>, candidate: string) {
    exists r :: r in uris && Matches(parse, r, candidate)
  }

  /** The test a URI is put to against a list. */
  function VariantOf(parse: Parser, uris: seq<string>): string -> bool {
    x => IsVariant(parse, uris, x)
  }

  /** `filter`. */
  function Marked(f: string -> bool, s: seq<string>): seq<string> {
    if s == [] then [] else (if f(s[0]) then [s[0]] else []) + Marked(f, s[1..])
  }

  /** The elements of `s` that are variants of something in `uris`. */
  function Variants(parse: Parser, uris: seq<string>, s: seq<string>): seq<string> {
    Marked(VariantOf(parse, uris), s)
  }

  function IndexOf(s: seq<string>, x: string): (i: nat)
    requires x in s
    ensures i < |s| && s[i] == x && x !in s[..i]
  {
    if s[0] == x then 0 else 1 + IndexOf(s[1..], x)
  }

  lemma {:induction false} VariantsAreMembers(f: string -> bool, s: seq<string>)
    ensures forall x :: x in Marked(f, s) <==> x in s && f(x)
  {
    if s != [] {
      VariantsAreMembers(f, s[1..]);
    }
  }

  class Client {
    var redirectUris: seq<string>

    constructor (registered: seq<string>)
      ensures redirectUris == registered
    {
      redirectUris := registered;
    }

    method AllowRegisteredNativeLoopbackPort(parse: Parser, redirectUri: string) returns (allowed: bool)
      modifies this
      ensures (redirectUris, allowed) == Admit(parse, old(redirectUris), redirectUri)
    {
      if redirectUri in redirectUris {
        return true;
      }
      if !IsVariant(parse, redirectUris, redirectUri) {
        return false;
      }
      redirectUris := redirectUris + [redirectUri];
      var dynamicVariants := Variants(parse, redirectUris, redirectUris);
      if |dynamicVariants| > MAX_VARIANTS {
        VariantsAreMembers(VariantOf(parse, redirectUris), redirectUris);
        assert dynamicVariants[0] in dynamicVariants;
        var index := IndexOf(redirectUris, dynamicVariants[0]);
        SpliceIsWithout(redirectUris, dynamicVariants[0]);
        redirectUris := redirectUris[..index] + redirectUris[index + 1..];
      }
      allowed := true;
    }
  }

  /** `splice` of the first element equal to x. */
  function Without(s: seq<string>, x: string): seq<string>
    requires x in s
  {
    if s[0] == x then s[1..] else [s[0]] + Without(s[1..], x)
  }

  lemma {:induction false} SpliceIsWithout(s: seq<string>, x: string)
    requires x in s
    ensures s[..IndexOf(s, x)] + s[IndexOf(s, x) + 1..] == Without(s, x)
  {
    if s[0] != x {
      SpliceIsWithout(s[1..], x);
      var i := IndexOf(s[1..], x);
      assert IndexOf(s, x) == i + 1;
      SpliceTail(s, i);
    }
  }

  lemma SpliceTail(s: seq<string>, i: nat)
    requires i + 1 < |s|
    ensures s[..i + 1] + s[i + 2..] == [s[0]] + (s[1..][..i] + s[1..][i + 1..])
  {
  }

  lemma {:induction false} WithoutKeepsOthers(s: seq<string>, x: string)
    requires x in s
    ensures forall y :: y in s && y != x ==> y in Without(s, x)
  {
    if s[0] != x {
      WithoutKeepsOthers(s[1..], x);
    }
  }

  /** The bound: more than eight variants cost the list its oldest one. */
  function Trim(parse: Parser, uris: seq<string>): seq<string> {
    var variants := Variants(parse, uris, uris);
    if |variants| > MAX_VARIANTS then
      VariantsAreMembers(VariantOf(parse, uris), uris);
      assert variants[0] in variants;
      Without(uris, variants[0])
    else uris
  }

  /** One call, as a function of the list. */
  function Admit(parse: Parser, uris: seq<string>, candidate: string): (seq<string>, bool) {
    if candidate in uris then (uris, true)
    else if !IsVariant(parse, uris, candidate) then (uris, false)
    else (Trim(parse, uris + [candidate]), true)
  }

  lemma {:induction false} VariantsAppend(f: string -> bool, a: seq<string>, b: seq<string>)
    ensures Marked(f, a + b) == Marked(f, a) + Marked(f, b)
  {
    if a == [] {
      assert a + b == b;
    } else {
      VariantsAppend(f, a[1..], b);
      assert (a + b)[1..] == a[1..] + b;
      var head := if f(a[0]) then [a[0]] else [];
      assert head + (Marked(f, a[1..]) + Marked(f, b)) == (head + Marked(f, a[1..])) + Marked(f, b);
    }
  }

  /** The evicted element is never the one just pushed. */
  lemma TrimKeepsNewest(parse: Parser, uris: seq<string>, newest: string)
    requires newest !in uris
    ensures newest in Trim(parse, uris + [newest])
  {
    var pushed := uris + [newest];
    var v := Variants(parse, pushed, uris);
    VariantsAppend(VariantOf(parse, pushed), uris, [newest]);
    if |Variants(parse, pushed, pushed)| > MAX_VARIANTS {
      VariantsAreMembers(VariantOf(parse, pushed), uris);
      assert v[0] in v && Variants(parse, pushed, pushed)[0] == v[0];
      WithoutKeepsOthers(pushed, v[0]);
    }
  }

  // ------------------------------------------------------------------ runs

  function Run(parse: Parser, registered: seq<string>, candidates: seq<string>): seq<string> {
    if candidates == [] then registered
    else
      var k := |candidates| - 1;
      Admit(parse, Run(parse, registered, candidates[..k]), candidates[k]).0
  }

  /** The candidates that were pushed, in order. */
  function Pushed(parse: Parser, registered: seq<string>, candidates: seq<string>): seq<string> {
    if candidates == [] then []
    else
      var k := |candidates| - 1;
      var before := Run(parse, registered, candidates[..k]);
      Pushed(parse, registered, candidates[..k])
        + (if candidates[k] !in before && IsVariant(parse, before, candidates[k]) then [candidates[k]] else [])
  }

  /** Drops the first n marked elements of s. */
  function Drop(f: string -> bool, s: seq<string>, n: nat): seq<string> {
    if s == [] || n == 0 then s
    else if f(s[0]) then Drop(f, s[1..], n - 1)
    else [s[0]] + Drop(f, s[1..], n)
  }

  /** Drops the first n variants of `registered` from s. */
  function DropVariants(parse: Parser, registered: seq<string>, s: seq<string>, n: nat): seq<string> {
    Drop(VariantOf(parse, registered), s, n)
  }

  /** Evictions after n pushes onto a list that was registered with v variants in it. */
  function Evictions(v: nat, n: nat): nat {
    if v >= MAX_VARIANTS then n else if v + n > MAX_VARIANTS then v + n - MAX_VARIANTS else 0
  }

  // ------------------------------------------- the list and the stateless rule

  /** A URI that has variants is not itself one: it has no port, and a variant has one. */
  lemma MatchersAreNoVariants(parse: Parser, uris: seq<string>, u: string, x: string)
    requires Matches(parse, u, x)
    ensures !IsVariant(parse, uris, u)
  {
  }

  /** Every listed URI is registered or a variant, and no registered URI with variants of its own is lost. */
  ghost predicate Faithful(parse: Parser, registered: seq<string>, uris: seq<string>) {
    && (forall u :: u in uris ==> u in registered || IsVariant(parse, registered, u))
    && (forall r :: r in registered && !IsVariant(parse, registered, r) ==> r in uris)
  }

  lemma FaithfulDecides(parse: Parser, registered: seq<string>, uris: seq<string>, x: string)
    requires Faithful(parse, registered, uris)
    ensures IsVariant(parse, uris, x) <==> IsVariant(parse, registered, x)
  {
    if IsVariant(parse, registered, x) {
      var r :| r in registered && Matches(parse, r, x);
      MatchersAreNoVariants(parse, registered, r, x);
    }
    if IsVariant(parse, uris, x) {
      var u :| u in uris && Matches(parse, u, x);
      MatchersAreNoVariants(parse, registered, u, x);
    }
  }

  lemma {:induction false} VariantsAgree(parse: Parser, registered: seq<string>, uris: seq<string>, s: seq<string>)
    requires Faithful(parse, registered, uris)
    ensures Variants(parse, uris, s) == Variants(parse, registered, s)
  {
    if s != [] {
      FaithfulDecides(parse, registered, uris, s[0]);
      VariantsAgree(parse, registered, uris, s[1..]);
    }
  }

  lemma {:induction false} DropMembers(f: string -> bool, s: seq<string>, n: nat)
    ensures forall x :: x in Drop(f, s, n) ==> x in s
    ensures forall x :: x in s && !f(x) ==> x in Drop(f, s, n)
  {
    if s != [] && n > 0 {
      DropMembers(f, s[1..], if f(s[0]) then n - 1 else n);
    }
  }

  lemma {:induction false} DropAppend(f: string -> bool, s: seq<string>, x: string, n: nat)
    requires n <= |Marked(f, s)|
    ensures Drop(f, s + [x], n) == Drop(f, s, n) + [x]
  {
    if s != [] && n > 0 {
      assert (s + [x])[1..] == s[1..] + [x];
      DropAppend(f, s[1..], x, if f(s[0]) then n - 1 else n);
    }
  }

  lemma {:induction false} DropCount(f: string -> bool, s: seq<string>, n: nat)
    requires n <= |Marked(f, s)|
    ensures |Marked(f, Drop(f, s, n))| == |Marked(f, s)| - n
  {
    if s != [] && n > 0 {
      if f(s[0]) {
        DropCount(f, s[1..], n - 1);
      } else {
        DropCount(f, s[1..], n);
        VariantsAppend(f, [s[0]], Drop(f, s[1..], n));
      }
    }
  }

  /** Removing the first occurrence of the first variant drops one more variant. */
  lemma {:induction false} DropOneMore(f: string -> bool, s: seq<string>, n: nat)
    requires n < |Marked(f, s)|
    ensures var t := Drop(f, s, n);
      var v := Marked(f, t);
      && v != [] && v[0] in t
      && Without(t, v[0]) == Drop(f, s, n + 1)
  {
    DropCount(f, s, n);
    var t := Drop(f, s, n);
    VariantsAreMembers(f, t);
    var v := Marked(f, t);
    assert v[0] in v;
    DropTwice(f, s, n);
    FirstVariant(f, t);
  }

  lemma {:induction false} DropTwice(f: string -> bool, s: seq<string>, n: nat)
    ensures Drop(f, Drop(f, s, n), 1) == Drop(f, s, n + 1)
  {
    if s != [] && n > 0 {
      DropTwice(f, s[1..], if f(s[0]) then n - 1 else n);
    }
  }

  lemma {:induction false} FirstVariant(f: string -> bool, t: seq<string>)
    requires Marked(f, t) != []
    ensures var x := Marked(f, t)[0];
      x in t && Without(t, x) == Drop(f, t, 1)
  {
    var x := Marked(f, t)[0];
    VariantsAreMembers(f, t);
    assert x in Marked(f, t);
    if !f(t[0]) {
      FirstVariant(f, t[1..]);
    }
  }

  /**
    The exact list after any run, whatever was registered: the registered URIs and
    the pushed variants in order, less the oldest variants that the bound evicted.
  */
  lemma {:induction false} ListShape(parse: Parser, registered: seq<string>, candidates: seq<string>)
    ensures var pushed := Pushed(parse, registered, candidates);
      var v := |Variants(parse, registered, registered)|;
      && |Variants(parse, registered, registered + pushed)| == v + |pushed|
      && Run(parse, registered, candidates) == DropVariants(parse, registered, registered + pushed,
                                                            Evictions(v, |pushed|))
      && Faithful(parse, registered, Run(parse, registered, candidates))
      && (forall x :: x in pushed ==> IsVariant(parse, registered, x))
  {
    if candidates == [] {
      assert registered + [] == registered;
    } else {
      var k := |candidates| - 1;
      var uris, pushed := Run(parse, registered, candidates[..k]), Pushed(parse, registered, candidates[..k]);
      ListShape(parse, registered, candidates[..k]);
      if candidates[k] !in uris && IsVariant(parse, uris, candidates[k]) {
        StepShape(parse, registered, uris, pushed, candidates[k]);
      } else {
        assert Pushed(parse, registered, candidates) == pushed;
      }
    }
  }

  /** On a faithful list, trimming counts and removes variants of the registered URIs. */
  lemma TrimFaithful(parse: Parser, registered: seq<string>, t: seq<string>)
    requires Faithful(parse, registered, t)
    ensures var v := Variants(parse, registered, t);
      && (|v| > MAX_VARIANTS ==> v[0] in t && Trim(parse, t) == Without(t, v[0]))
      && (|v| <= MAX_VARIANTS ==> Trim(parse, t) == t)
  {
    VariantsAgree(parse, registered, t, t);
    VariantsAreMembers(VariantOf(parse, registered), t);
    var v := Variants(parse, registered, t);
    if |v| > MAX_VARIANTS {
      assert v[0] in v;
    }
  }

  lemma PushIsFaithful(parse: Parser, registered: seq<string>, uris: seq<string>, x: string)
    requires Faithful(parse, registered, uris) && IsVariant(parse, registered, x)
    ensures Faithful(parse, registered, uris + [x])
  {
  }

  /** Within the bound nothing is evicted, beyond it exactly one variant. */
  lemma EvictionsGrow(v: nat, n: nat)
    ensures Evictions(v, n) <= v + n
    ensures Evictions(v, n + 1) == Evictions(v, n) + (if v + n + 1 - Evictions(v, n) > MAX_VARIANTS then 1 else 0)
  {
  }

  /** Trimming a faithful list, seen as the list `all` less its first e variants. */
  lemma EvictShape(parse: Parser, registered: seq<string>, all: seq<string>, e: nat, uris: seq<string>)
    requires e < |Variants(parse, registered, all)| && uris == DropVariants(parse, registered, all, e)
    requires Faithful(parse, registered, uris)
    ensures Trim(parse, uris)
         == DropVariants(parse, registered, all,
                         if |Variants(parse, registered, all)| - e > MAX_VARIANTS then e + 1 else e)
  {
    TrimFaithful(parse, registered, uris);
    DropCount(VariantOf(parse, registered), all, e);
    DropOneMore(VariantOf(parse, registered), all, e);
  }

  /** Pushing a variant and trimming drops exactly the variants the bound asks for. */
  lemma TrimShape(parse: Parser, registered: seq<string>, all: seq<string>, x: string, v: nat, n: nat)
    requires |Variants(parse, registered, all)| == v + n && IsVariant(parse, registered, x)
    requires Faithful(parse, registered, DropVariants(parse, registered, all, Evictions(v, n)))
    ensures |Variants(parse, registered, all + [x])| == v + n + 1
    ensures Trim(parse, DropVariants(parse, registered, all, Evictions(v, n)) + [x])
         == DropVariants(parse, registered, all + [x], Evictions(v, n + 1))
  {
    var e := Evictions(v, n);
    var uris := DropVariants(parse, registered, all, e);
    EvictionsGrow(v, n);
    VariantsAppend(VariantOf(parse, registered), all, [x]);
    DropAppend(VariantOf(parse, registered), all, x, e);
    PushIsFaithful(parse, registered, uris, x);
    EvictShape(parse, registered, all + [x], e, uris + [x]);
  }

  lemma DropIsFaithful(parse: Parser, registered: seq<string>, all: seq<string>, n: nat)
    requires forall x :: x in all ==> x in registered || IsVariant(parse, registered, x)
    requires forall r :: r in registered ==> r in all
    ensures Faithful(parse, registered, DropVariants(parse, registered, all, n))
  {
    DropMembers(VariantOf(parse, registered), all, n);
  }

  lemma StepShape(parse: Parser, registered: seq<string>, uris: seq<string>, pushed: seq<string>, x: string)
    requires var v := |Variants(parse, registered, registered)|;
      && |Variants(parse, registered, registered + pushed)| == v + |pushed|
      && uris == DropVariants(parse, registered, registered + pushed, Evictions(v, |pushed|))
    requires Faithful(parse, registered, uris)
    requires forall p :: p in pushed ==> IsVariant(parse, registered, p)
    requires x !in uris && IsVariant(parse, uris, x)
    ensures var v := |Variants(parse, registered, registered)|;
      && |Variants(parse, registered, registered + (pushed + [x]))| == v + |pushed| + 1
      && Admit(parse, uris, x).0 == DropVariants(parse, registered, registered + (pushed + [x]),
                                                 Evictions(v, |pushed| + 1))
    ensures IsVariant(parse, registered, x)
    ensures Faithful(parse, registered, Admit(parse, uris, x).0)
  {
    var v := |Variants(parse, registered, registered)|;
    FaithfulDecides(parse, registered, uris, x);
    assert (registered + pushed) + [x] == registered + (pushed + [x]);
    TrimShape(parse, registered, registered + pushed, x, v, |pushed|);
    DropIsFaithful(parse, registered, registered + (pushed + [x]), Evictions(v, |pushed| + 1));
  }

  /**
    The answer never depends on history or eviction: it is the stateless rule,
    and an accepted candidate is in the list on return.
  */
  lemma AnswerIsStateless(parse: Parser, registered: seq<string>, candidates: seq<string>, x: string)
    ensures var uris := Run(parse, registered, candidates);
      var (after, allowed) := Admit(parse, uris, x);
      && (allowed <==> x in registered || IsVariant(parse, registered, x))
      && (allowed ==> x in after)
  {
    var uris := Run(parse, registered, candidates);
    ListShape(parse, registered, candidates);
    FaithfulDecides(parse, registered, uris, x);
    if x !in uris {
      TrimKeepsNewest(parse, uris, x);
    }
  }

  /** With no variant among the registered URIs the list is all of them, then the last eight pushed. */
  lemma RegisteredThenLastEight(parse: Parser, registered: seq<string>, candidates: seq<string>)
    requires forall r :: r in registered ==> !IsVariant(parse, registered, r)
    ensures var pushed := Pushed(parse, registered, candidates);
      Run(parse, registered, candidates)
        == registered + (if |pushed| <= 8 then pushed else pushed[|pushed| - 8..])
  {
    var pushed := Pushed(parse, registered, candidates);
    ListShape(parse, registered, candidates);
    NoVariants(VariantOf(parse, registered), registered);
    DropSkips(VariantOf(parse, registered), registered, pushed, Evictions(0, |pushed|));
    DropPrefix(VariantOf(parse, registered), pushed, Evictions(0, |pushed|));
  }

  lemma {:induction false} NoVariants(f: string -> bool, s: seq<string>)
    requires forall x :: x in s ==> !f(x)
    ensures Marked(f, s) == []
  {
    if s != [] {
      assert s[0] in s;
      NoVariants(f, s[1..]);
    }
  }

  lemma {:induction false} DropSkips(f: string -> bool, a: seq<string>, b: seq<string>, n: nat)
    requires forall r :: r in a ==> !f(r)
    ensures Drop(f, a + b, n) == a + Drop(f, b, n)
  {
    if a == [] {
      assert a + b == b;
    } else if n > 0 {
      assert (a + b)[1..] == a[1..] + b && a[0] in a;
      DropSkips(f, a[1..], b, n);
    }
  }

  lemma {:induction false} DropPrefix(f: string -> bool, b: seq<string>, n: nat)
    requires n <= |b| && forall x :: x in b ==> f(x)
    ensures Drop(f, b, n) == b[n..]
  {
    if n > 0 {
      assert b[0] in b;
      DropPrefix(f, b[1..], n - 1);
    }
  }

  ghost predicate Distinct(s: seq<string>) {
    forall i, j :: 0 <= i < j < |s| ==> s[i] != s[j]
  }

  lemma {:induction false} WithoutStaysDistinct(s: seq<string>, x: string)
    requires Distinct(s) && x in s
    ensures Distinct(Without(s, x)) && forall y :: y in Without(s, x) ==> y in s
  {
    if s[0] != x {
      WithoutStaysDistinct(s[1..], x);
      var rest := Without(s[1..], x);
      forall i | 0 <= i < |rest| ensures rest[i] != s[0] {
        assert rest[i] in rest;
      }
    }
  }

  /** No call introduces a duplicate. */
  lemma {:induction false} ListStaysDistinct(parse: Parser, registered: seq<string>, candidates: seq<string>)
    requires Distinct(registered)
    ensures Distinct(Run(parse, registered, candidates))
  {
    if candidates != [] {
      var k := |candidates| - 1;
      ListStaysDistinct(parse, registered, candidates[..k]);
      var pushed := Run(parse, registered, candidates[..k]) + [candidates[k]];
      var variants := Variants(parse, pushed, pushed);
      VariantsAreMembers(VariantOf(parse, pushed), pushed);
      if |variants| > MAX_VARIANTS && Distinct(pushed) {
        assert variants[0] in variants;
        WithoutStaysDistinct(pushed, variants[0]);
      }
    }
  }

  ghost predicate KeepsRegistered(parse: Parser, registered: seq<string>, candidates: seq<string>) {
    forall r :: r in registered ==> r in Run(parse, registered, candidates)
  }

  /** Until the first eviction the list is the registered URIs and the pushed ones, which are new. */
  lemma {:induction false} BeforeEviction(parse: Parser, registered: seq<string>, candidates: seq<string>)
    requires Evictions(|Variants(parse, registered, registered)|, |Pushed(parse, registered, candidates)|) == 0
    ensures Run(parse, registered, candidates) == registered + Pushed(parse, registered, candidates)
    ensures forall x :: x in Pushed(parse, registered, candidates) ==> x !in registered
  {
    ListShape(parse, registered, candidates);
    if candidates != [] {
      BeforeEviction(parse, registered, candidates[..|candidates| - 1]);
    }
  }

  /** The call that evicts first takes the first registered variant, if there is one. */
  lemma EvictingCall(parse: Parser, registered: seq<string>, candidates: seq<string>)
    requires candidates != [] && Distinct(registered) && Variants(parse, registered, registered) != []
    requires var v := |Variants(parse, registered, registered)|;
      && Evictions(v, |Pushed(parse, registered, candidates[..|candidates| - 1])|) == 0
      && Evictions(v, |Pushed(parse, registered, candidates)|) > 0
    ensures Variants(parse, registered, registered)[0] !in Run(parse, registered, candidates)
    ensures Variants(parse, registered, registered)[0] in registered
  {
    var pushed := Pushed(parse, registered, candidates);
    BeforeEviction(parse, registered, candidates[..|candidates| - 1]);
    ListShape(parse, registered, candidates);
    assert Evictions(|Variants(parse, registered, registered)|, |pushed|) == 1;
    FirstDropped(VariantOf(parse, registered), registered, pushed);
  }

  lemma {:induction false} FirstEviction(parse: Parser, registered: seq<string>, candidates: seq<string>)
    returns (k: nat)
    requires Distinct(registered) && Variants(parse, registered, registered) != []
    requires Evictions(|Variants(parse, registered, registered)|, |Pushed(parse, registered, candidates)|) > 0
    ensures k <= |candidates| && !KeepsRegistered(parse, registered, candidates[..k])
  {
    var m := |candidates| - 1;
    if Evictions(|Variants(parse, registered, registered)|, |Pushed(parse, registered, candidates[..m])|) > 0 {
      k := FirstEviction(parse, registered, candidates[..m]);
      assert candidates[..m][..k] == candidates[..k];
    } else {
      k := |candidates|;
      assert candidates[..k] == candidates;
      EvictingCall(parse, registered, candidates);
    }
  }

  lemma {:induction false} FirstDropped(f: string -> bool, a: seq<string>, b: seq<string>)
    requires Distinct(a) && Marked(f, a) != []
    requires forall x :: x in b ==> x !in a
    ensures var x := Marked(f, a)[0];
      x in a && x !in Drop(f, a + b, 1)
  {
    VariantsAreMembers(f, a);
    assert Marked(f, a)[0] in Marked(f, a);
    assert (a + b)[1..] == a[1..] + b;
    if !f(a[0]) {
      FirstDropped(f, a[1..], b);
    }
  }

  /**
    Every registered URI stays listed throughout a run exactly when none of them
    is a variant of another, nothing was pushed, or the bound was never exceeded.
  */
  lemma RegisteredSurvive(parse: Parser, registered: seq<string>, candidates: seq<string>)
    requires Distinct(registered)
    ensures var v, n := |Variants(parse, registered, registered)|, |Pushed(parse, registered, candidates)|;
      (forall k :: 0 <= k <= |candidates| ==> KeepsRegistered(parse, registered, candidates[..k]))
      <==> (v == 0 || n == 0 || v + n <= MAX_VARIANTS)
  {
    var v, n := |Variants(parse, registered, registered)|, |Pushed(parse, registered, candidates)|;
    if v != 0 && Evictions(v, n) > 0 {
      var k := FirstEviction(parse, registered, candidates);
      assert !KeepsRegistered(parse, registered, candidates[..k]);
    } else {
      forall k | 0 <= k <= |candidates| ensures KeepsRegistered(parse, registered, candidates[..k]) {
        PushedGrows(parse, registered, candidates, k);
        ListShape(parse, registered, candidates[..k]);
        VariantsAreMembers(VariantOf(parse, registered), registered);
        if v != 0 {
          BeforeEviction(parse, registered, candidates[..k]);
        }
      }
    }
  }

  lemma {:induction false} PushedGrows(parse: Parser, registered: seq<string>, candidates: seq<string>, k: nat)
    requires k <= |candidates|
    ensures |Pushed(parse, registered, candidates[..k])| <= |Pushed(parse, registered, candidates)|
  {
    if k < |candidates| {
      PushedGrows(parse, registered, candidates[..|candidates| - 1], k);
      assert candidates[..|candidates| - 1][..k] == candidates[..k];
    } else {
      assert candidates[..k] == candidates;
    }
  }

  // -------------------------------------------------- survival in every run

  /** Different variants that are not registered themselves. */
  ghost predicate Unregistered(parse: Parser, registered: seq<string>, xs: seq<string>) {
    Distinct(xs) && forall x :: x in xs ==> IsVariant(parse, registered, x) && x !in registered
  }

  /** Enough of them to pass the bound. */
  ghost predicate PassesBound(parse: Parser, registered: seq<string>, xs: seq<string>) {
    Unregistered(parse, registered, xs) && xs != [] && |Variants(parse, registered, registered)| + |xs| > MAX_VARIANTS
  }

  /** The pushes up to a first eviction are different and unregistered. */
  lemma {:induction false} EvictionPassesBound(parse: Parser, registered: seq<string>, candidates: seq<string>)
    returns (xs: seq<string>)
    requires Distinct(registered)
    requires Evictions(|Variants(parse, registered, registered)|, |Pushed(parse, registered, candidates)|) > 0
    ensures PassesBound(parse, registered, xs)
  {
    var v, m := |Variants(parse, registered, registered)|, |candidates| - 1;
    if Evictions(v, |Pushed(parse, registered, candidates[..m])|) > 0 {
      xs := EvictionPassesBound(parse, registered, candidates[..m]);
    } else {
      xs := Pushed(parse, registered, candidates);
      BeforeEviction(parse, registered, candidates[..m]);
      ListStaysDistinct(parse, registered, candidates[..m]);
      ListShape(parse, registered, candidates);
      PushedAreDistinct(registered, Pushed(parse, registered, candidates[..m]), candidates[m]);
    }
  }

  lemma PushedAreDistinct(registered: seq<string>, pushed: seq<string>, x: string)
    requires Distinct(registered + pushed) && x !in registered + pushed
    ensures Distinct(pushed + [x]) && forall y :: y in pushed + [x] ==> y !in registered
  {
    var all := registered + pushed;
    forall i, j | 0 <= i < j < |pushed| ensures pushed[i] != pushed[j] {
      assert all[|registered| + i] != all[|registered| + j];
    }
    forall i, j | 0 <= i < |registered| && 0 <= j < |pushed| ensures registered[i] != pushed[j] {
      assert all[i] != all[|registered| + j];
    }
  }

  /** A variant that is neither registered nor pushed before is pushed. */
  lemma NewVariantIsPushed(parse: Parser, registered: seq<string>, candidates: seq<string>, x: string)
    requires IsVariant(parse, registered, x) && x !in registered && x !in Pushed(parse, registered, candidates)
    ensures Pushed(parse, registered, candidates + [x]) == Pushed(parse, registered, candidates) + [x]
  {
    var uris, pushed := Run(parse, registered, candidates), Pushed(parse, registered, candidates);
    ListShape(parse, registered, candidates);
    DropMembers(VariantOf(parse, registered), registered + pushed,
                Evictions(|Variants(parse, registered, registered)|, |pushed|));
    FaithfulDecides(parse, registered, uris, x);
    assert (candidates + [x])[..|candidates|] == candidates;
  }

  /** Different unregistered variants are pushed one and all. */
  lemma {:induction false} AllPushed(parse: Parser, registered: seq<string>, xs: seq<string>, k: nat)
    requires Unregistered(parse, registered, xs) && k <= |xs|
    ensures Pushed(parse, registered, xs[..k]) == xs[..k]
  {
    if k > 0 {
      AllPushed(parse, registered, xs, k - 1);
      var before, x := xs[..k - 1], xs[k - 1];
      assert x in xs && x !in before;
      assert xs[..k] == before + [x];
      NewVariantIsPushed(parse, registered, before, x);
    }
  }

  /** With a variant among the registered URIs, pushing more variants than the bound loses one. */
  lemma PassingLosesOne(parse: Parser, registered: seq<string>, xs: seq<string>) returns (k: nat)
    requires Distinct(registered) && Variants(parse, registered, registered) != [] && PassesBound(parse, registered, xs)
    ensures k <= |xs| && !KeepsRegistered(parse, registered, xs[..k])
  {
    AllPushed(parse, registered, xs, |xs|);
    assert xs[..|xs|] == xs;
    RegisteredSurvive(parse, registered, xs);
    k :| 0 <= k <= |xs| && !KeepsRegistered(parse, registered, xs[..k]);
  }

  lemma NoneIsLost(parse: Parser, registered: seq<string>, candidates: seq<string>)
    requires Distinct(registered)
    requires Variants(parse, registered, registered) == [] || !exists xs :: PassesBound(parse, registered, xs)
    ensures KeepsRegistered(parse, registered, candidates)
  {
    RegisteredSurvive(parse, registered, candidates);
    assert candidates[..|candidates|] == candidates;
    var v, n := |Variants(parse, registered, registered)|, |Pushed(parse, registered, candidates)|;
    if v != 0 && n != 0 && v + n > MAX_VARIANTS {
      var xs := EvictionPassesBound(parse, registered, candidates);
    }
  }

  /**
    Every registered URI survives every run exactly when none of them is a variant
    of another, or there are too few other variants to pass the bound. Both can be
    read off the registration.
  */
  lemma RegisteredSurviveAlways(parse: Parser, registered: seq<string>)
    requires Distinct(registered)
    ensures (forall candidates :: KeepsRegistered(parse, registered, candidates))
      <==> Variants(parse, registered, registered) == [] || !exists xs :: PassesBound(parse, registered, xs)
  {
    if Variants(parse, registered, registered) != [] && exists xs :: PassesBound(parse, registered, xs) {
      var xs :| PassesBound(parse, registered, xs);
      var k := PassingLosesOne(parse, registered, xs);
    } else {
      forall candidates ensures KeepsRegistered(parse, registered, candidates) {
        NoneIsLost(parse, registered, candidates);
      }
    }
  }

  /** A parser for a client that writes nothing but its port. */
  function PortParser(text: string): Option<Url> {
    Some(Url("http:", "127.0.0.1", text, "", "", "/callback", "", ""))
  }

  function Ports(n: nat): seq<string> {
    seq(n, i requires 0 <= i < n => seq(i + 2, _ => '1'))
  }

  lemma PortIsVariant(registered: seq<string>, base: string, x: string)
    requires base == "" && base in registered && x != ""
    ensures IsVariant(PortParser, registered, x)
  {
    assert Matches(PortParser, base, x);
  }

  lemma PortsPassBound(registered: seq<string>, base: string, port: string, n: nat)
    requires registered == [base, port] && base == "" && |port| == 1 && n >= MAX_VARIANTS
    ensures Distinct(registered) && Variants(PortParser, registered, registered) != []
    ensures PassesBound(PortParser, registered, Ports(n))
  {
    var xs := Ports(n);
    forall x | x in xs ensures IsVariant(PortParser, registered, x) && x !in registered {
      assert |x| >= 2;
      PortIsVariant(registered, base, x);
    }
    forall i, j | 0 <= i < j < |xs| ensures xs[i] != xs[j] {
      assert |xs[i]| == i + 2 && |xs[j]| == j + 2;
    }
    PortIsVariant(registered, base, port);
    VariantsAreMembers(VariantOf(PortParser, registered), registered);
    assert port in Variants(PortParser, registered, registered);
  }

  /** It does happen: a client that registered both the plain URI and one with a port can lose a registered URI. */
  lemma RegisteredCanBeLost() returns (registered: seq<string>, candidates: seq<string>)
    ensures Distinct(registered) && !KeepsRegistered(PortParser, registered, candidates)
  {
    var base: string, port: string := "", "1";
    registered := [base, port];
    PortsPassBound(registered, base, port, MAX_VARIANTS);
    RegisteredSurviveAlways(PortParser, registered);
    candidates :| !KeepsRegistered(PortParser, registered, candidates);
  }
}
