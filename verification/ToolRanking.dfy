/** When search ranks as documented, by how many distinct terms match, though its score counts repeated terms again. */
module ToolRanking {
  import opened Sequences
  import opened Json
  import opened StringOrder
  import opened ToolSearch

  // ----- containment -----

  predicate OccursAt(haystack: string, term: string, i: nat) {
    i + |term| <= |haystack| && haystack[i..i + |term|] == term
  }

  lemma {:induction false} OccursIsContained(haystack: string, term: string, i: nat)
    requires OccursAt(haystack, term, i)
    ensures Contains(haystack, term)
  {
    if i > 0 {
      assert haystack[1..][i - 1..i - 1 + |term|] == haystack[i..i + |term|];
      OccursIsContained(haystack[1..], term, i - 1);
    }
  }

  lemma {:induction false} ContainedOccurs(haystack: string, term: string) returns (i: nat)
    requires Contains(haystack, term)
    ensures OccursAt(haystack, term, i)
  {
    if term <= haystack {
      i := 0;
    } else {
      i := ContainedOccurs(haystack[1..], term);
      assert haystack[1..][i..i + |term|] == haystack[i + 1..i + 1 + |term|];
      i := i + 1;
    }
  }

  lemma ContainsTransitive(a: string, b: string, c: string)
    requires Contains(a, b) && Contains(b, c)
    ensures Contains(a, c)
  {
    var i := ContainedOccurs(a, b);
    var j := ContainedOccurs(b, c);
    SliceOfSlice(a, i, |b|, j, |c|);
    OccursIsContained(a, c, i + j);
  }

  lemma SliceOfSlice(a: string, i: nat, n: nat, j: nat, m: nat)
    requires i + n <= |a| && j + m <= n
    ensures a[i..i + n][j..j + m] == a[i + j..i + j + m]
  {
    var left, right := a[i..i + n][j..j + m], a[i + j..i + j + m];
    forall k | 0 <= k < m ensures left[k] == right[k] {
    }
  }

  lemma ContainsItself(a: string)
    ensures Contains(a, a)
  {
  }

  lemma ContainsAntisymmetric(a: string, b: string)
    requires Contains(a, b) && Contains(b, a)
    ensures a == b
  {
    var i := ContainedOccurs(a, b);
    var j := ContainedOccurs(b, a);
    assert a[0..|a|] == a;
  }

  /** A term without a space is found in one of the words around a space, or not at all. */
  lemma ContainsEither(a: string, b: string, term: string)
    requires ' ' !in term
    ensures Contains(a + [' '] + b, term) <==> Contains(a, term) || Contains(b, term)
  {
    var both := a + [' '] + b;
    if Contains(a, term) {
      var i := ContainedOccurs(a, term);
      assert both[i..i + |term|] == a[i..i + |term|];
      OccursIsContained(both, term, i);
    }
    if Contains(b, term) {
      var i := ContainedOccurs(b, term);
      var k := |a| + 1 + i;
      assert both[k..k + |term|] == b[i..i + |term|];
      OccursIsContained(both, term, k);
    }
    if Contains(both, term) {
      var i := ContainedOccurs(both, term);
      OccursOnOneSide(a, b, term, i);
    }
  }

  lemma OccursOnOneSide(a: string, b: string, term: string, i: nat)
    requires ' ' !in term && OccursAt(a + [' '] + b, term, i)
    ensures Contains(a, term) || Contains(b, term)
  {
    var both := a + [' '] + b;
    if i + |term| <= |a| {
      assert both[i..i + |term|] == a[i..i + |term|];
      OccursIsContained(a, term, i);
    } else if i > |a| {
      var k := i - |a| - 1;
      assert both[i..i + |term|] == b[k..k + |term|];
      OccursIsContained(b, term, k);
    } else {
      SpaceInside(a, b, term, i);
    }
  }

  lemma SpaceInside(a: string, b: string, term: string, i: nat)
    requires OccursAt(a + [' '] + b, term, i) && i <= |a| < i + |term|
    ensures ' ' in term
  {
    assert (a + [' '] + b)[i..i + |term|][|a| - i] == ' ';
  }

  // ----- the score, as a sum over terms -----

  /** The positions of the query that hold one of `terms`. */
  function Tally(chosen: set<string>, terms: seq<string>): nat {
    if terms == [] then 0 else (if terms[0] in chosen then 1 else 0) + Tally(chosen, terms[1..])
  }

  lemma {:induction false} ScoreIsTally(haystack: string, terms: seq<string>, chosen: set<string>)
    requires forall t :: t in terms ==> (t in chosen <==> Contains(haystack, t))
    ensures Score(haystack, terms) == Tally(chosen, terms)
  {
    if terms != [] {
      assert terms[0] in terms && forall t :: t in terms[1..] ==> t in terms;
      ScoreIsTally(haystack, terms[1..], chosen);
    }
  }

  lemma {:induction false} TallyUnion(a: set<string>, b: set<string>, terms: seq<string>)
    requires a !! b
    ensures Tally(a + b, terms) == Tally(a, terms) + Tally(b, terms)
  {
    if terms != [] {
      TallyUnion(a, b, terms[1..]);
    }
  }

  function Times(term: string, terms: seq<string>): nat {
    multiset(terms)[term]
  }

  lemma {:induction false} TallyOfOne(term: string, terms: seq<string>)
    ensures Tally({term}, terms) == Times(term, terms)
  {
    if terms != [] {
      TallyOfOne(term, terms[1..]);
      assert terms == [terms[0]] + terms[1..];
      MultisetOfAppend([terms[0]], terms[1..]);
    }
  }

  /** Terms that each occur `times` times. */
  lemma {:induction false} TallyEqual(chosen: set<string>, terms: seq<string>, times: nat)
    requires forall t :: t in chosen ==> Times(t, terms) == times
    ensures Tally(chosen, terms) == times * |chosen|
    decreases |chosen|
  {
    if chosen == {} {
      TallyOfNone(terms);
    } else {
      var t :| t in chosen;
      var rest := chosen - {t};
      TallyEqual(rest, terms, times);
      TallyUnion({t}, rest, terms);
      TallyOfOne(t, terms);
      assert chosen == {t} + rest && |chosen| == 1 + |rest|;
      OneMore(times, |rest|);
    }
  }

  lemma OneMore(times: nat, n: nat)
    ensures times * (1 + n) == times + times * n
  {
  }

  lemma {:induction false} TallyOfNone(terms: seq<string>)
    ensures Tally({}, terms) == 0
  {
    if terms != [] {
      TallyOfNone(terms[1..]);
    }
  }

  lemma {:induction false} TallyAtLeast(chosen: set<string>, terms: seq<string>)
    requires forall t :: t in chosen ==> t in terms
    ensures Tally(chosen, terms) >= |chosen|
    decreases |chosen|
  {
    if chosen != {} {
      var t :| t in chosen;
      var rest := chosen - {t};
      TallyAtLeast(rest, terms);
      TallyUnion({t}, rest, terms);
      TallyOfOne(t, terms);
      assert chosen == {t} + rest && t in multiset(terms);
    }
  }

  lemma ScoreTallies(haystack: string, terms: seq<string>)
    ensures Score(haystack, terms) == Tally(FoundTerms(haystack, terms), terms)
  {
    ScoreIsTally(haystack, terms, FoundTerms(haystack, terms));
  }

  /** If every term of the query occurs equally often, the score is the documented count, times that number. */
  lemma EvenQueryScores(haystack: string, terms: seq<string>, times: nat)
    requires forall t :: t in terms ==> Times(t, terms) == times
    ensures Score(haystack, terms) == times * |FoundTerms(haystack, terms)|
  {
    ScoreTallies(haystack, terms);
    TallyEqual(FoundTerms(haystack, terms), terms, times);
  }

  // ----- the exact condition -----

  /** A higher score on exactly the haystacks that match more distinct terms. */
  ghost predicate RanksAsDocumented(terms: seq<string>) {
    forall h, g :: Score(h, terms) > Score(g, terms) <==> |FoundTerms(h, terms)| > |FoundTerms(g, terms)|
  }

  predicate Unrelated(t: string, u: string) {
    !Contains(t, u) && !Contains(u, t)
  }

  /** Terms of which neither contains the other occur equally often. */
  ghost predicate UnrelatedAreEven(terms: seq<string>) {
    forall t, u :: t in terms && u in terms && Unrelated(t, u) ==> Times(t, terms) == Times(u, terms)
  }

  /** What one haystack has found and the other has not is unrelated to what only the other has found. */
  lemma OnlyFoundUnrelated(h: string, g: string, terms: seq<string>, t: string, u: string)
    requires t in FoundTerms(h, terms) - FoundTerms(g, terms) && u in FoundTerms(g, terms) - FoundTerms(h, terms)
    ensures Unrelated(t, u)
  {
    if Contains(t, u) {
      ContainsTransitive(h, t, u);
    }
    if Contains(u, t) {
      ContainsTransitive(g, u, t);
    }
  }

  lemma Difference(a: set<string>, b: set<string>, terms: seq<string>)
    ensures Tally(a, terms) == Tally(a - b, terms) + Tally(a * b, terms)
    ensures |a| == |a - b| + |a * b|
  {
    assert a == (a - b) + (a * b);
    TallyUnion(a - b, a * b, terms);
  }

  lemma EvenRanks(h: string, g: string, terms: seq<string>)
    requires UnrelatedAreEven(terms)
    ensures Score(h, terms) > Score(g, terms) <==> |FoundTerms(h, terms)| > |FoundTerms(g, terms)|
  {
    var a, b := FoundTerms(h, terms), FoundTerms(g, terms);
    ScoreTallies(h, terms);
    ScoreTallies(g, terms);
    Difference(a, b, terms);
    Difference(b, a, terms);
    assert a * b == b * a;
    if a - b == {} || b - a == {} {
      TallyOfNone(terms);
      TallyAtLeast(a - b, terms);
      TallyAtLeast(b - a, terms);
    } else {
      var t :| t in a - b;
      var u :| u in b - a;
      OnlyEven(h, g, terms, t, u);
      SameTimes(Times(t, terms), |a - b|, |b - a|);
    }
  }

  lemma OnlyEven(h: string, g: string, terms: seq<string>, t: string, u: string)
    requires UnrelatedAreEven(terms)
    requires t in FoundTerms(h, terms) - FoundTerms(g, terms) && u in FoundTerms(g, terms) - FoundTerms(h, terms)
    ensures var a, b := FoundTerms(h, terms), FoundTerms(g, terms);
            && Tally(a - b, terms) == Times(t, terms) * |a - b|
            && Tally(b - a, terms) == Times(t, terms) * |b - a|
            && Times(t, terms) > 0
  {
    var a, b := FoundTerms(h, terms), FoundTerms(g, terms);
    forall v | v in b - a ensures Times(v, terms) == Times(t, terms) {
      OnlyFoundUnrelated(h, g, terms, t, v);
    }
    forall v | v in a - b ensures Times(v, terms) == Times(t, terms) {
      OnlyFoundUnrelated(h, g, terms, v, u);
    }
    TallyEqual(a - b, terms, Times(t, terms));
    TallyEqual(b - a, terms, Times(t, terms));
    assert t in multiset(terms);
  }

  lemma SameTimes(times: nat, m: nat, n: nat)
    requires times > 0
    ensures times * m > times * n <==> m > n
  {
  }

  // ----- two haystacks that tell unrelated terms apart -----

  /** The terms of the query properly inside `term`. */
  function Below(term: string, terms: seq<string>): seq<string> {
    if terms == [] then []
    else (if Contains(term, terms[0]) && terms[0] != term then [terms[0]] else []) + Below(term, terms[1..])
  }

  lemma {:induction false} BelowMembers(term: string, terms: seq<string>, v: string)
    ensures v in Below(term, terms) <==> v in terms && Contains(term, v) && v != term
  {
    if terms != [] {
      BelowMembers(term, terms[1..], v);
      assert terms == [terms[0]] + terms[1..];
    }
  }

  function Spaced(words: seq<string>): string
    requires words != []
    decreases |words|
  {
    if |words| == 1 then words[0] else words[0] + [' '] + Spaced(words[1..])
  }

  lemma {:induction false} SpacedContains(words: seq<string>, term: string)
    requires words != [] && ' ' !in term
    ensures Contains(Spaced(words), term) <==> exists w :: w in words && Contains(w, term)
    decreases |words|
  {
    if |words| == 1 {
      assert forall w :: w in words <==> w == words[0];
    } else {
      ContainsEither(words[0], Spaced(words[1..]), term);
      SpacedContains(words[1..], term);
      assert forall w :: w in words <==> w == words[0] || w in words[1..];
    }
  }

  /** `t`, and everything properly inside `u`. */
  function Telling(t: string, u: string, terms: seq<string>): string {
    Spaced([t] + Below(u, terms))
  }

  lemma TellingFinds(t: string, u: string, terms: seq<string>, v: string)
    requires v in terms && ' ' !in v
    ensures Contains(Telling(t, u, terms), v) <==> Contains(t, v) || (Contains(u, v) && v != u)
  {
    var words := [t] + Below(u, terms);
    SpacedContains(words, v);
    if Contains(Telling(t, u, terms), v) {
      var w :| w in words && Contains(w, v);
      if w != t {
        BelowMembers(u, terms, w);
        ContainsTransitive(u, w, v);
        if v == u {
          ContainsAntisymmetric(u, w);
        }
      }
    }
    if Contains(t, v) {
      assert t in words;
    }
    if Contains(u, v) && v != u {
      BelowMembers(u, terms, v);
      ContainsItself(v);
      assert v in words;
    }
  }

  predicate SpaceFree(terms: seq<string>) {
    forall t :: t in terms ==> ' ' !in t
  }

  lemma TellingApart(t: string, u: string, terms: seq<string>)
    requires SpaceFree(terms) && t in terms && u in terms && Unrelated(t, u)
    ensures var a, b := FoundTerms(Telling(t, u, terms), terms), FoundTerms(Telling(u, t, terms), terms);
            && t in a && u !in a && b == a - {t} + {u}
  {
    var a, b := FoundTerms(Telling(t, u, terms), terms), FoundTerms(Telling(u, t, terms), terms);
    ContainsItself(t);
    ContainsItself(u);
    forall v | v in terms
      ensures v in a <==> Contains(t, v) || (Contains(u, v) && v != u)
      ensures v in b <==> Contains(u, v) || (Contains(t, v) && v != t)
    {
      TellingFinds(t, u, terms, v);
      TellingFinds(u, t, terms, v);
    }
  }

  lemma UnevenMisranks(t: string, u: string, terms: seq<string>)
    requires SpaceFree(terms) && t in terms && u in terms && Unrelated(t, u)
    ensures var h, g := Telling(t, u, terms), Telling(u, t, terms);
            && |FoundTerms(h, terms)| == |FoundTerms(g, terms)|
            && Score(h, terms) - Score(g, terms) == Times(t, terms) - Times(u, terms)
  {
    var h, g := Telling(t, u, terms), Telling(u, t, terms);
    var a, b := FoundTerms(h, terms), FoundTerms(g, terms);
    TellingApart(t, u, terms);
    ScoreTallies(h, terms);
    ScoreTallies(g, terms);
    var common := a - {t};
    assert a == {t} + common && b == {u} + common;
    TallyUnion({t}, common, terms);
    TallyUnion({u}, common, terms);
    TallyOfOne(t, terms);
    TallyOfOne(u, terms);
  }

  /**
   * For terms without spaces, as splitting a query gives: the ranking is the documented one on all haystacks if
   * and only if any two terms, neither containing the other, occur equally often in the query.
   */
  lemma RanksAsDocumentedIff(terms: seq<string>)
    requires SpaceFree(terms)
    ensures RanksAsDocumented(terms) <==> UnrelatedAreEven(terms)
  {
    if UnrelatedAreEven(terms) {
      forall h, g
        ensures Score(h, terms) > Score(g, terms) <==> |FoundTerms(h, terms)| > |FoundTerms(g, terms)|
      {
        EvenRanks(h, g, terms);
      }
    }
    if RanksAsDocumented(terms) {
      forall t, u | t in terms && u in terms && Unrelated(t, u) ensures Times(t, terms) == Times(u, terms) {
        UnevenMisranks(t, u, terms);
      }
    }
  }

  // ----- what this means for search -----

  /** The term is a substring of the lower-cased name or description. */
  ghost predicate MatchesText(rules: TextRules, tool: Tool, term: string) {
    exists i: nat :: OccursAt(rules.lower(tool.name), term, i) || OccursAt(rules.lower(tool.description), term, i)
  }

  lemma TermFoundIff(rules: TextRules, tool: Tool, term: string)
    requires ' ' !in term
    ensures Contains(Haystack(rules, tool), term) <==> MatchesText(rules, tool, term)
  {
    var name, description := rules.lower(tool.name), rules.lower(tool.description);
    assert " " == [' '];
    ContainsEither(name, description, term);
    if Contains(name, term) {
      var i := ContainedOccurs(name, term);
    }
    if Contains(description, term) {
      var i := ContainedOccurs(description, term);
    }
    if i: nat :| OccursAt(name, term, i) || OccursAt(description, term, i) {
      if OccursAt(name, term, i) {
        OccursIsContained(name, term, i);
      } else {
        OccursIsContained(description, term, i);
      }
    }
  }

  /** No word of a query contains the white space it was split at. */
  predicate Spaceless(terms: seq<string>) {
    forall t :: t in terms ==> ' ' !in t
  }

  /** The terms a tool matches, each once. */
  ghost function DistinctMatches(q: Query, tool: Tool): set<string> {
    set term | term in q.terms && MatchesText(q.rules, tool, term)
  }

  lemma FoundAreDistinct(q: Query, tool: Tool)
    requires Spaceless(q.terms)
    ensures FoundTerms(Haystack(q.rules, tool), q.terms) == DistinctMatches(q, tool)
  {
    forall term | term in q.terms
      ensures Contains(Haystack(q.rules, tool), term) <==> MatchesText(q.rules, tool, term)
    {
      TermFoundIff(q.rules, tool, term);
    }
  }

  /** A tool is found if some term is a substring of its name or description, or there are no terms. */
  lemma FoundIff(q: Query, tool: Tool)
    requires Spaceless(q.terms)
    ensures Matches(q, tool) <==> q.terms == [] || exists term :: term in q.terms && MatchesText(q.rules, tool, term)
  {
    FoundAreDistinct(q, tool);
    ScoreCountsDistinctIff(Haystack(q.rules, tool), q.terms);
    if DistinctMatches(q, tool) == {} {
      NothingScores(Haystack(q.rules, tool), q.terms);
    } else {
      var term :| term in DistinctMatches(q, tool);
    }
    if term :| term in q.terms && MatchesText(q.rules, tool, term) {
      assert term in DistinctMatches(q, tool);
      assert |DistinctMatches(q, tool)| > 0;
    }
  }

  lemma {:induction false} NothingScores(haystack: string, terms: seq<string>)
    requires FoundTerms(haystack, terms) == {}
    ensures Score(haystack, terms) == 0
  {
    if terms != [] {
      assert terms[0] in terms && forall t :: t in terms[1..] ==> t in terms;
      assert terms[0] !in FoundTerms(haystack, terms);
      assert FoundTerms(haystack, terms[1..]) <= FoundTerms(haystack, terms);
      NothingScores(haystack, terms[1..]);
    }
  }

  /** The documented order: more distinct terms first, then names. */
  ghost predicate BeforeAsDocumented(q: Query, a: Tool, b: Tool) {
    var m, n := |DistinctMatches(q, a)|, |DistinctMatches(q, b)|;
    m > n || (m == n && Less(a.name, b.name))
  }

  /** Under the condition on the query, search ranks any two tools as documented. */
  lemma SearchRanksAsDocumented(q: Query, a: Tool, b: Tool)
    requires Spaceless(q.terms) && UnrelatedAreEven(q.terms)
    ensures Before(q, a, b) <==> BeforeAsDocumented(q, a, b)
  {
    FoundAreDistinct(q, a);
    FoundAreDistinct(q, b);
    EvenRanks(Haystack(q.rules, a), Haystack(q.rules, b), q.terms);
    EvenRanks(Haystack(q.rules, b), Haystack(q.rules, a), q.terms);
  }

  lemma OneLetter(a: char, b: char)
    ensures Contains([a], [b]) <==> a == b
  {
    assert [a][1..] == [];
    var nothing: string := [];
    assert !([b] <= nothing);
    assert !Contains(nothing, [b]);
    if [b] <= [a] {
      assert [a][0] == [b][0];
    }
  }

  lemma LetterTool(rules: TextRules, tool: Tool, name: char, term: char)
    requires tool.name == [name] && tool.description == [] && term != ' '
    requires rules.lower([name]) == [name] && rules.lower([]) == []
    ensures Contains(Haystack(rules, tool), [term]) <==> name == term
  {
    var nothing: string := [];
    OneLetter(name, term);
    ContainsEither([name], nothing, [term]);
    assert !([term] <= nothing) && !Contains(nothing, [term]);
    assert " " == [' '];
  }

  /**
   * The query `b b a` and two tools that match one distinct term each: the documentation puts `a` first, by
   * name, and search puts `b` first.
   */
  lemma RepeatedTermMisranks(rules: TextRules, schema: Json)
    requires rules.lower("a") == "a" && rules.lower("b") == "b" && rules.lower("") == ""
    ensures var q := Query(rules, ["b", "b", "a"]);
            var a, b := Tool("a", "", schema), Tool("b", "", schema);
            BeforeAsDocumented(q, a, b) && Before(q, b, a) && !Before(q, a, b)
  {
    var q := Query(rules, ["b", "b", "a"]);
    var a, b := Tool("a", "", schema), Tool("b", "", schema);
    LetterTool(rules, a, 'a', 'a');
    LetterTool(rules, a, 'a', 'b');
    LetterTool(rules, b, 'b', 'a');
    LetterTool(rules, b, 'b', 'b');
    TwiceAndOnce(Haystack(rules, a), false, true);
    TwiceAndOnce(Haystack(rules, b), true, false);
    FoundAreDistinct(q, a);
    FoundAreDistinct(q, b);
    assert Less("a", "b");
  }

  lemma TwiceAndOnce(haystack: string, b: bool, a: bool)
    requires Contains(haystack, "b") == b && Contains(haystack, "a") == a
    ensures Score(haystack, ["b", "b", "a"]) == (if b then 2 else 0) + (if a then 1 else 0)
    ensures FoundTerms(haystack, ["b", "b", "a"]) == (if b then {"b"} else {}) + (if a then {"a"} else {})
  {
    var terms := ["b", "b", "a"];
    assert terms[1..] == ["b", "a"] && ["b", "a"][1..] == ["a"] && ["a"][1..] == [];
    assert forall t :: t in terms <==> t == "b" || t == "a";
    assert Score(haystack, ["a"]) == if a then 1 else 0;
    assert Score(haystack, ["b", "a"]) == (if b then 1 else 0) + (if a then 1 else 0);
    assert terms[0] in terms && terms[2] in terms;
  }
}
