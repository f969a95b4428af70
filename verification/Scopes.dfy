/**
  Scopes as sequences, sets and space-separated text. Three representations of
  one scope set are compared in three places; all of them decide the same thing.
*/
module Scopes {
  import opened Prelude

  // ------------------------------------------------------------ sorted sets

  function Members(s: seq<string>): set<string> {
    set x | x in s
  }

  /** `[...new Set(s)]`: first occurrences, in order. */
  function Distinct(s: seq<string>): seq<string> {
    if s == [] then []
    else
      var earlier := Distinct(s[..|s| - 1]);
      if s[|s| - 1] in earlier then earlier else earlier + [s[|s| - 1]]
  }

  function Keep(p: string -> bool, s: seq<string>): seq<string> {
    if s == [] then []
    else if p(s[|s| - 1]) then Keep(p, s[..|s| - 1]) + [s[|s| - 1]]
    else Keep(p, s[..|s| - 1])
  }

  function Insert(before: (string, string) -> bool, x: string, s: seq<string>): seq<string> {
    if s == [] then [x]
    else if before(x, s[0]) then [x] + s
    else [s[0]] + Insert(before, x, s[1..])
  }

  /** A stable sort by a strict order. */
  function Sort(before: (string, string) -> bool, s: seq<string>): seq<string> {
    if s == [] then [] else Insert(before, s[|s| - 1], Sort(before, s[..|s| - 1]))
  }

  /** `before` is a strict total order on the set. */
  ghost predicate Orders(before: (string, string) -> bool, s: set<string>) {
    && (forall x :: x in s ==> !before(x, x))
    && (forall x, y :: x in s && y in s && x != y ==> before(x, y) || before(y, x))
    && (forall x, y, z :: x in s && y in s && z in s && before(x, y) && before(y, z) ==> before(x, z))
  }

  ghost predicate Ascending(before: (string, string) -> bool, s: seq<string>) {
    forall i, j :: 0 <= i < j < |s| ==> before(s[i], s[j])
  }

  ghost predicate NoRepeats(s: seq<string>) {
    forall i, j :: 0 <= i < j < |s| ==> s[i] != s[j]
  }

  lemma MembersSnoc(s: seq<string>)
    requires s != []
    ensures Members(s) == Members(s[..|s| - 1]) + {s[|s| - 1]}
  {
    assert s == s[..|s| - 1] + [s[|s| - 1]];
  }

  lemma MembersCons(s: seq<string>)
    requires s != []
    ensures Members(s) == {s[0]} + Members(s[1..])
  {
    assert s == [s[0]] + s[1..];
  }

  lemma {:induction false} DistinctKeepsMembers(s: seq<string>)
    ensures NoRepeats(Distinct(s)) && Members(Distinct(s)) == Members(s)
  {
    if s != [] {
      DistinctKeepsMembers(s[..|s| - 1]);
      MembersSnoc(s);
      var earlier := Distinct(s[..|s| - 1]);
      if s[|s| - 1] !in earlier {
        MembersSnoc(Distinct(s));
      } else {
        assert s[|s| - 1] in Members(earlier);
      }
    }
  }

  lemma {:induction false} KeepMembers(p: string -> bool, s: seq<string>)
    ensures forall x :: x in Keep(p, s) <==> x in s && p(x)
  {
    if s != [] {
      KeepMembers(p, s[..|s| - 1]);
      assert s == s[..|s| - 1] + [s[|s| - 1]];
    }
  }

  lemma {:induction false} InsertMembers(before: (string, string) -> bool, x: string, s: seq<string>)
    ensures Members(Insert(before, x, s)) == Members(s) + {x}
  {
    if s != [] && !before(x, s[0]) {
      InsertMembers(before, x, s[1..]);
      MembersCons(s);
      MembersCons(Insert(before, x, s));
    } else if s != [] {
      MembersCons(Insert(before, x, s));
    }
  }

  lemma {:induction false} InsertAscending(before: (string, string) -> bool, x: string, s: seq<string>)
    requires Ascending(before, s) && x !in s && Orders(before, Members(s) + {x})
    ensures Ascending(before, Insert(before, x, s))
  {
    if s != [] && before(x, s[0]) {
      forall j | 0 <= j < |s| ensures before(x, s[j]) {
        assert {x, s[0], s[j]} <= Members(s) + {x};
      }
    } else if s != [] {
      MembersCons(s);
      assert Members(s[1..]) + {x} <= Members(s) + {x};
      InsertAscending(before, x, s[1..]);
      InsertMembers(before, x, s[1..]);
      var rest := Insert(before, x, s[1..]);
      forall j | 0 <= j < |rest| ensures before(s[0], rest[j]) {
        assert rest[j] in Members(rest) && s[0] in Members(s);
        if rest[j] != x {
          assert rest[j] in s[1..];
        }
      }
    }
  }

  lemma {:induction false} SortKeepsMembers(before: (string, string) -> bool, s: seq<string>)
    ensures Members(Sort(before, s)) == Members(s)
  {
    if s != [] {
      SortKeepsMembers(before, s[..|s| - 1]);
      InsertMembers(before, s[|s| - 1], Sort(before, s[..|s| - 1]));
      MembersSnoc(s);
    }
  }

  lemma {:induction false} SortAscends(before: (string, string) -> bool, s: seq<string>)
    requires NoRepeats(s) && Orders(before, Members(s))
    ensures Ascending(before, Sort(before, s))
  {
    if s != [] {
      var k := |s| - 1;
      MembersSnoc(s);
      SortAscends(before, s[..k]);
      SortKeepsMembers(before, s[..k]);
      assert s[k] !in Members(s[..k]);
      InsertAscending(before, s[k], Sort(before, s[..k]));
    }
  }

  /** A set has one ascending sequence. */
  lemma {:induction false} AscendingIsUnique(before: (string, string) -> bool, a: seq<string>, b: seq<string>)
    requires Orders(before, Members(a)) && Ascending(before, a) && Ascending(before, b) && Members(a) == Members(b)
    ensures a == b
  {
    assert b != [] ==> b[0] in Members(b);
    if a == [] {
      assert Members(a) == {};
    } else {
      assert a[0] in Members(a) && a[0] in Members(b);
      assert b != [] && b[0] in Members(a);
      assert a[0] == b[0];
      HeadRemoved(before, a);
      HeadRemoved(before, b);
      AscendingIsUnique(before, a[1..], b[1..]);
      assert a == [a[0]] + a[1..] && b == [b[0]] + b[1..];
    }
  }

  lemma HeadRemoved(before: (string, string) -> bool, a: seq<string>)
    requires a != [] && Orders(before, Members(a)) && Ascending(before, a)
    ensures Members(a[1..]) == Members(a) - {a[0]} && Ascending(before, a[1..])
  {
    MembersCons(a);
    forall i | 0 < i < |a| ensures a[i] != a[0] {
      assert a[0] in Members(a) && before(a[0], a[i]);
    }
  }

  /** Sorting the distinct elements gives the one ascending sequence of the set. */
  lemma SortedSet(before: (string, string) -> bool, s: seq<string>)
    requires Orders(before, Members(s))
    ensures Ascending(before, Sort(before, Distinct(s))) && Members(Sort(before, Distinct(s))) == Members(s)
  {
    DistinctKeepsMembers(s);
    SortAscends(before, Distinct(s));
    SortKeepsMembers(before, Distinct(s));
  }

  // -------------------------------------------------------- the scope order

  /** The index in the fixed order of scopes, or -1. */
  function Rank(scope: string): int {
    if scope == "mcp:read" then 0
    else if scope == "mcp:content.write" then 1
    else if scope == "mcp:media.write" then 2
    else if scope == "mcp:taxonomy.write" then 3
    else if scope == "mcp:seo.write" then 4
    else -1
  }

  const SCOPE_COUNT := 5

  predicate Known(scope: string) {
    Rank(scope) >= 0
  }

  const READ := "mcp:read"
  const CONTENT := "mcp:content.write"
  const MEDIA := "mcp:media.write"
  const TAXONOMY := "mcp:taxonomy.write"
  const SEO := "mcp:seo.write"

  /** The known scopes are these five, in this order. */
  lemma RankMeaning(scope: string)
    ensures Known(scope) <==> scope in {READ, CONTENT, MEDIA, TAXONOMY, SEO}
    ensures Rank(READ) < Rank(CONTENT) < Rank(MEDIA) < Rank(TAXONOMY) < Rank(SEO)
  {
  }

  predicate RankBefore(a: string, b: string) {
    Rank(a) < Rank(b)
  }

  ghost predicate AllKnown(s: seq<string>) {
    forall i :: 0 <= i < |s| ==> Known(s[i])
  }

  lemma RankOrders(s: set<string>)
    requires forall x :: x in s ==> Known(x)
    ensures Orders(RankBefore, s)
  {
  }

  /** What the shared schema accepts: one to five known scopes, none twice, each after the one before it. */
  ghost predicate SchemaAccepts(scopes: seq<string>) {
    && 1 <= |scopes| <= SCOPE_COUNT
    && AllKnown(scopes)
    && |Members(scopes)| == |scopes|
    && (forall i :: 0 < i < |scopes| ==> Rank(scopes[i - 1]) < Rank(scopes[i]))
  }

  lemma {:induction false} AdjacentAscends(scopes: seq<string>, i: nat, j: nat)
    requires i < j < |scopes| && forall k :: 0 < k < |scopes| ==> Rank(scopes[k - 1]) < Rank(scopes[k])
    ensures RankBefore(scopes[i], scopes[j])
    decreases j
  {
    if i < j - 1 {
      AdjacentAscends(scopes, i, j - 1);
    }
  }

  lemma {:induction false} RankAtLeastIndex(scopes: seq<string>, i: nat)
    requires i < |scopes| && AllKnown(scopes) && Ascending(RankBefore, scopes)
    ensures Rank(scopes[i]) >= i
  {
    if i > 0 {
      RankAtLeastIndex(scopes, i - 1);
      assert RankBefore(scopes[i - 1], scopes[i]);
    }
  }

  lemma {:induction false} NoRepeatsCount(s: seq<string>)
    requires NoRepeats(s)
    ensures |Members(s)| == |s|
  {
    if s != [] {
      NoRepeatsCount(s[..|s| - 1]);
      MembersSnoc(s);
      assert s[|s| - 1] !in Members(s[..|s| - 1]);
    }
  }

  /** The schema accepts exactly the non-empty ascending sequences of known scopes. */
  lemma SchemaIsAscending(scopes: seq<string>)
    ensures SchemaAccepts(scopes) <==> scopes != [] && AllKnown(scopes) && Ascending(RankBefore, scopes)
  {
    if SchemaAccepts(scopes) {
      forall i, j | 0 <= i < j < |scopes| ensures RankBefore(scopes[i], scopes[j]) {
        AdjacentAscends(scopes, i, j);
      }
    }
    if scopes != [] && AllKnown(scopes) && Ascending(RankBefore, scopes) {
      RankAtLeastIndex(scopes, |scopes| - 1);
      NoRepeatsCount(scopes);
      forall i | 0 < i < |scopes| ensures Rank(scopes[i - 1]) < Rank(scopes[i]) {
        assert RankBefore(scopes[i - 1], scopes[i]);
      }
    }
  }

  /** Each set of known scopes has one sequence that the schema accepts. */
  lemma AcceptedIsUnique(a: seq<string>, b: seq<string>)
    requires SchemaAccepts(a) && SchemaAccepts(b)
    ensures a == b <==> Members(a) == Members(b)
  {
    SchemaIsAscending(a);
    SchemaIsAscending(b);
    if Members(a) == Members(b) {
      RankOrders(Members(a));
      AscendingIsUnique(RankBefore, a, b);
    }
  }

  function InOrder(scopes: seq<string>): seq<string> {
    Sort(RankBefore, Distinct(scopes))
  }

  lemma InOrderIsAccepted(scopes: seq<string>)
    requires scopes != [] && AllKnown(scopes)
    ensures SchemaAccepts(InOrder(scopes)) && Members(InOrder(scopes)) == Members(scopes)
  {
    RankOrders(Members(scopes));
    SortedSet(RankBefore, scopes);
    var sorted := InOrder(scopes);
    assert scopes[0] in Members(sorted);
    forall i | 0 <= i < |sorted| ensures Known(sorted[i]) {
      assert sorted[i] in Members(sorted);
    }
    SchemaIsAscending(sorted);
  }

  // ---------------------------------------------------------------- text

  /** The non-empty pieces of `text` between spaces; `word` is the piece under way. */
  function WordsFrom(word: string, text: string): seq<string>
    decreases |text|
  {
    if text == "" then (if word == "" then [] else [word])
    else if text[0] == ' ' then (if word == "" then [] else [word]) + WordsFrom("", text[1..])
    else WordsFrom(word + [text[0]], text[1..])
  }

  function Words(text: string): seq<string> {
    WordsFrom("", text)
  }

  function Join(words: seq<string>): string {
    if words == [] then "" else if |words| == 1 then words[0] else words[0] + " " + Join(words[1..])
  }

  predicate Word(w: string) {
    w != "" && ' ' !in w
  }

  lemma {:induction false} WordsAreWords(word: string, text: string)
    requires ' ' !in word
    ensures forall i :: 0 <= i < |WordsFrom(word, text)| ==> Word(WordsFrom(word, text)[i])
    decreases |text|
  {
    if text != "" {
      if text[0] == ' ' {
        WordsAreWords("", text[1..]);
      } else {
        WordsAreWords(word + [text[0]], text[1..]);
      }
    }
  }

  lemma {:induction false} WordIsRead(word: string, w: string, rest: string)
    requires ' ' !in w
    ensures WordsFrom(word, w + rest) == WordsFrom(word + w, rest)
    decreases |w|
  {
    if w == "" {
      assert w + rest == rest && word + w == word;
    } else {
      assert (w + rest)[1..] == w[1..] + rest;
      WordIsRead(word + [w[0]], w[1..], rest);
      assert word + [w[0]] + w[1..] == word + w;
    }
  }

  /** Words survive being joined and read back. */
  lemma {:induction false} JoinRoundTrip(words: seq<string>)
    requires forall i :: 0 <= i < |words| ==> Word(words[i])
    ensures Words(Join(words)) == words
  {
    if |words| == 1 {
      assert words[0] + "" == words[0];
      WordIsRead("", words[0], "");
      assert "" + words[0] == words[0];
    } else if words != [] {
      var rest := " " + Join(words[1..]);
      assert words[0] + " " + Join(words[1..]) == words[0] + rest;
      WordIsRead("", words[0], rest);
      assert "" + words[0] == words[0];
      assert rest[1..] == Join(words[1..]);
      JoinRoundTrip(words[1..]);
    }
  }

  /** What splits off at a space: the piece before it, unless it is empty, and then the words of the rest. */
  lemma WordsMeaning(w: string, rest: string)
    requires ' ' !in w
    ensures Words(w) == if w == "" then [] else [w]
    ensures Words(w + " " + rest) == (if w == "" then [] else [w]) + Words(rest)
  {
    assert w + "" == w && "" + w == w;
    WordIsRead("", w, "");
    var tail := " " + rest;
    assert w + " " + rest == w + tail;
    WordIsRead("", w, tail);
    assert tail[1..] == rest;
  }

  /** A single space goes between words, and none around them. */
  lemma {:induction false} JoinMeaning(a: seq<string>, b: seq<string>)
    ensures Join([]) == "" && (|a| == 1 ==> Join(a) == a[0])
    ensures a != [] && b != [] ==> Join(a + b) == Join(a) + " " + Join(b)
  {
    if |a| > 1 && b != [] {
      JoinMeaning(a[1..], b);
      assert (a + b)[1..] == a[1..] + b;
      assert a[0] + " " + (Join(a[1..]) + " " + Join(b)) == a[0] + " " + Join(a[1..]) + " " + Join(b);
    } else if |a| == 1 && b != [] {
      assert (a + b)[1..] == b;
    }
  }

  // ------------------------------------------------------- comparing as text

  predicate TextBefore(a: string, b: string) {
    if b == "" then false
    else if a == "" then true
    else if a[0] != b[0] then a[0] < b[0]
    else TextBefore(a[1..], b[1..])
  }

  lemma {:induction false} TextTotal(a: string, b: string)
    ensures !TextBefore(a, a)
    ensures a != b ==> TextBefore(a, b) || TextBefore(b, a)
    decreases |a| + |b|
  {
    if a != "" && b != "" && a[0] == b[0] {
      TextTotal(a[1..], b[1..]);
      assert a == [a[0]] + a[1..] && b == [b[0]] + b[1..];
    } else if a != "" {
      TextTotal(a[1..], "");
    }
  }

  lemma {:induction false} TextTransitive(a: string, b: string, c: string)
    requires TextBefore(a, b) && TextBefore(b, c)
    ensures TextBefore(a, c)
    decreases |a|
  {
    if a != "" && a[0] == b[0] == c[0] {
      TextTransitive(a[1..], b[1..], c[1..]);
    }
  }

  lemma TextOrders(s: set<string>)
    ensures Orders(TextBefore, s)
  {
    forall x, y ensures !TextBefore(x, x) && (x != y ==> TextBefore(x, y) || TextBefore(y, x)) {
      TextTotal(x, y);
    }
    forall x, y, z | TextBefore(x, y) && TextBefore(y, z) ensures TextBefore(x, z) {
      TextTransitive(x, y, z);
    }
  }

  /** The text under which the loader compares scope lists. */
  function ScopeSet(scopes: seq<string>): string {
    Join(Sort(TextBefore, Distinct(scopes)))
  }

  /** Equal text means equal sets. */
  lemma ScopeSetDecides(a: seq<string>, b: seq<string>)
    requires forall i :: 0 <= i < |a| ==> Word(a[i])
    requires forall i :: 0 <= i < |b| ==> Word(b[i])
    ensures ScopeSet(a) == ScopeSet(b) <==> Members(a) == Members(b)
  {
    TextOrders(Members(a));
    TextOrders(Members(b));
    SortedSet(TextBefore, a);
    SortedSet(TextBefore, b);
    var x, y := Sort(TextBefore, Distinct(a)), Sort(TextBefore, Distinct(b));
    if Members(a) == Members(b) {
      AscendingIsUnique(TextBefore, x, y);
    } else if ScopeSet(a) == ScopeSet(b) {
      SortedWords(x, a);
      SortedWords(y, b);
      JoinRoundTrip(x);
      JoinRoundTrip(y);
    }
  }

  lemma SortedWords(sorted: seq<string>, s: seq<string>)
    requires Members(sorted) == Members(s) && forall i :: 0 <= i < |s| ==> Word(s[i])
    ensures forall i :: 0 <= i < |sorted| ==> Word(sorted[i])
  {
    forall i | 0 <= i < |sorted| ensures Word(sorted[i]) {
      assert sorted[i] in Members(sorted);
    }
  }

  // ------------------------------------------------------ interaction scopes

  function InteractionScopes(scope: Option<string>): Option<seq<string>> {
    if scope.None? then None
    else
      var scopes := InOrder(Keep(Known, Words(scope.value)));
      if scopes == [] then None else Some(scopes)
  }

  /** The scopes of an interaction are the schema's one sequence for the known words of the parameter. */
  lemma InteractionScopesAreCanonical(raw: string)
    ensures var scopes := InteractionScopes(Some(raw));
      && (scopes.None? <==> forall w :: w in Words(raw) ==> !Known(w))
      && (scopes.Some? ==>
            && SchemaAccepts(scopes.value)
            && Members(scopes.value) == (set w | w in Words(raw) && Known(w))
            && forall other :: SchemaAccepts(other) && Members(other) == Members(scopes.value) ==>
              other == scopes.value)
  {
    KeepMembers(Known, Words(raw));
    var known := Keep(Known, Words(raw));
    if known != [] {
      InOrderIsAccepted(known);
      var scopes := InOrder(known);
      assert known[0] in Members(scopes);
      forall other | SchemaAccepts(other) && Members(other) == Members(scopes) ensures other == scopes {
        AcceptedIsUnique(other, scopes);
      }
      assert known[0] in Words(raw) && Known(known[0]);
    } else {
      forall w | w in Words(raw) ensures !Known(w) {
        assert w !in known;
      }
    }
  }
}
