/** Finding tools in the searchable catalog and staging them for loading (`search_tools.rs`). */
module ToolSearch {
  import opened Outcomes
  import opened Sequences
  import opened Json
  import opened StringOrder

  datatype Tool = Tool(name: string, description: string, schema: Json)

  datatype ToolMatch = ToolMatch(name: string, description: string)

  function MatchOf(tool: Tool): ToolMatch {
    ToolMatch(tool.name, tool.description)
  }

  /** Unicode lower-casing and splitting at white space, which are not part of this model. */
  datatype TextRules = TextRules(lower: string -> string, words: string -> seq<string>)

  const MAX_AUTO_LOADED_MATCHES := 8

  // ----- scoring -----

  predicate Contains(haystack: string, term: string) {
    term <= haystack || (haystack != [] && Contains(haystack[1..], term))
  }

  function Haystack(rules: TextRules, tool: Tool): string {
    rules.lower(tool.name) + " " + rules.lower(tool.description)
  }

  function Score(haystack: string, terms: seq<string>): nat {
    if terms == [] then 0 else (if Contains(haystack, terms[0]) then 1 else 0) + Score(haystack, terms[1..])
  }

  /** The terms found, each counted once. */
  function FoundTerms(haystack: string, terms: seq<string>): set<string> {
    set term | term in terms && Contains(haystack, term)
  }

  /** No term that is found occurs twice in the query. */
  predicate FoundOnce(haystack: string, terms: seq<string>) {
    terms == []
    || (FoundOnce(haystack, terms[1..]) && !(Contains(haystack, terms[0]) && terms[0] in terms[1..]))
  }

  /** The score is the number of distinct terms found exactly when no found term is repeated; otherwise it is more. */
  lemma {:induction false} ScoreCountsDistinctIff(haystack: string, terms: seq<string>)
    ensures Score(haystack, terms) >= |FoundTerms(haystack, terms)|
    ensures Score(haystack, terms) == |FoundTerms(haystack, terms)| <==> FoundOnce(haystack, terms)
  {
    if terms != [] {
      var rest := terms[1..];
      ScoreCountsDistinctIff(haystack, rest);
      assert terms == [terms[0]] + rest;
      assert FoundTerms(haystack, terms)
          == FoundTerms(haystack, rest) + (if Contains(haystack, terms[0]) then {terms[0]} else {});
    }
  }

  /** A repeated term counts twice. */
  lemma RepeatedTermScoresTwice()
    ensures Score("a", ["a", "a"]) == 2 && FoundTerms("a", ["a", "a"]) == {"a"}
  {
    assert ["a", "a"][1..] == ["a"] && ["a"][1..] == [];
    assert "a" <= "a";
    assert Contains("a", "a");
  }

  // ----- ranking -----

  datatype Query = Query(rules: TextRules, terms: seq<string>)

  function ScoreOf(q: Query, tool: Tool): nat {
    Score(Haystack(q.rules, tool), q.terms)
  }

  predicate Matches(q: Query, tool: Tool) {
    q.terms == [] || ScoreOf(q, tool) > 0
  }

  /** Higher scores first, then names in code-unit order. */
  predicate Before(q: Query, a: Tool, b: Tool) {
    ScoreOf(q, a) > ScoreOf(q, b) || (ScoreOf(q, a) == ScoreOf(q, b) && Less(a.name, b.name))
  }

  function Matching(q: Query, catalog: seq<Tool>): seq<Tool> {
    if catalog == [] then []
    else (if Matches(q, catalog[0]) then [catalog[0]] else []) + Matching(q, catalog[1..])
  }

  function Insert(q: Query, tool: Tool, ranked: seq<Tool>): seq<Tool> {
    if ranked == [] then [tool]
    else if Before(q, ranked[0], tool) then [ranked[0]] + Insert(q, tool, ranked[1..])
    else [tool] + ranked
  }

  /** A stable sort by rank. */
  function Ranked(q: Query, tools: seq<Tool>): seq<Tool> {
    if tools == [] then [] else Insert(q, tools[0], Ranked(q, tools[1..]))
  }

  function Search(rules: TextRules, catalog: seq<Tool>, query: string): seq<Tool> {
    var q := Query(rules, rules.words(rules.lower(query)));
    Ranked(q, Matching(q, catalog))
  }

  /** No later tool ranks before an earlier one. */
  ghost predicate InRankOrder(q: Query, tools: seq<Tool>) {
    forall i, j :: 0 <= i < j < |tools| ==> !Before(q, tools[j], tools[i])
  }

  lemma NotBeforeTransitive(q: Query, a: Tool, b: Tool, c: Tool)
    requires !Before(q, b, a) && !Before(q, c, b)
    ensures !Before(q, c, a)
  {
    CompareEqual(a.name, b.name);
    CompareEqual(b.name, c.name);
    CompareEqual(a.name, c.name);
    if Less(a.name, b.name) && Less(b.name, c.name) {
      LessTransitive(a.name, b.name, c.name);
    }
  }

  lemma BeforeIsAsymmetric(q: Query, a: Tool, b: Tool)
    requires Before(q, a, b)
    ensures !Before(q, b, a)
  {
    CompareEqual(a.name, b.name);
  }

  lemma {:induction false} InsertRanked(q: Query, tool: Tool, ranked: seq<Tool>)
    requires InRankOrder(q, ranked)
    ensures multiset(Insert(q, tool, ranked)) == multiset{tool} + multiset(ranked)
    ensures InRankOrder(q, Insert(q, tool, ranked))
  {
    if ranked == [] {
    } else if Before(q, ranked[0], tool) {
      InsertRanked(q, tool, ranked[1..]);
      InsertLater(q, tool, ranked);
    } else {
      InsertFirst(q, tool, ranked);
    }
  }

  lemma InsertFirst(q: Query, tool: Tool, ranked: seq<Tool>)
    requires ranked != [] && InRankOrder(q, ranked) && !Before(q, ranked[0], tool)
    ensures InRankOrder(q, [tool] + ranked)
    ensures multiset([tool] + ranked) == multiset{tool} + multiset(ranked)
  {
    forall j | 0 <= j < |ranked| ensures !Before(q, ranked[j], tool) {
      if j > 0 {
        NotBeforeTransitive(q, tool, ranked[0], ranked[j]);
      }
    }
    MultisetOfAppend([tool], ranked);
  }

  lemma InsertLater(q: Query, tool: Tool, ranked: seq<Tool>)
    requires ranked != [] && InRankOrder(q, ranked) && Before(q, ranked[0], tool)
    requires InRankOrder(q, Insert(q, tool, ranked[1..]))
    requires multiset(Insert(q, tool, ranked[1..])) == multiset{tool} + multiset(ranked[1..])
    ensures InRankOrder(q, [ranked[0]] + Insert(q, tool, ranked[1..]))
    ensures multiset([ranked[0]] + Insert(q, tool, ranked[1..])) == multiset{tool} + multiset(ranked)
  {
    var head, tail := ranked[0], ranked[1..];
    var rest := Insert(q, tool, tail);
    BeforeIsAsymmetric(q, head, tool);
    forall j | 0 <= j < |rest| ensures !Before(q, rest[j], head) {
      MembersOfInserted(q, tool, tail, rest[j]);
      if rest[j] in tail {
        var k :| 0 <= k < |tail| && tail[k] == rest[j];
        assert ranked[k + 1] == rest[j];
      }
    }
    assert ranked == [head] + tail;
    MultisetOfAppend([head], tail);
    MultisetOfAppend([head], rest);
  }

  lemma {:induction false} MembersOfInserted(q: Query, tool: Tool, ranked: seq<Tool>, t: Tool)
    ensures t in Insert(q, tool, ranked) <==> t == tool || t in ranked
  {
    if ranked != [] && Before(q, ranked[0], tool) {
      MembersOfInserted(q, tool, ranked[1..], t);
    }
    assert ranked != [] ==> ranked == [ranked[0]] + ranked[1..];
  }

  lemma {:induction false} RankedCorrect(q: Query, tools: seq<Tool>)
    ensures multiset(Ranked(q, tools)) == multiset(tools)
    ensures InRankOrder(q, Ranked(q, tools))
  {
    if tools != [] {
      RankedCorrect(q, tools[1..]);
      InsertRanked(q, tools[0], Ranked(q, tools[1..]));
      assert tools == [tools[0]] + tools[1..];
      MultisetOfAppend([tools[0]], tools[1..]);
    }
  }

  lemma {:induction false} MatchingMembers(q: Query, catalog: seq<Tool>, t: Tool)
    ensures t in Matching(q, catalog) <==> t in catalog && Matches(q, t)
  {
    if catalog != [] {
      MatchingMembers(q, catalog[1..], t);
      assert catalog == [catalog[0]] + catalog[1..];
    }
  }

  /** Search finds exactly the matching tools and puts them in rank order. */
  lemma SearchCorrect(rules: TextRules, catalog: seq<Tool>, query: string)
    ensures var q := Query(rules, rules.words(rules.lower(query)));
            && (forall t :: t in Search(rules, catalog, query) <==> t in catalog && Matches(q, t))
            && InRankOrder(q, Search(rules, catalog, query))
            && multiset(Search(rules, catalog, query)) == multiset(Matching(q, catalog))
  {
    var q := Query(rules, rules.words(rules.lower(query)));
    RankedCorrect(q, Matching(q, catalog));
    forall t ensures t in Search(rules, catalog, query) <==> t in catalog && Matches(q, t) {
      MatchingMembers(q, catalog, t);
      assert t in multiset(Search(rules, catalog, query)) <==> t in multiset(Matching(q, catalog));
    }
  }

  /** A name stands for one tool. */
  ghost predicate NamesIdentify(tools: seq<Tool>) {
    forall a, b :: a in tools && b in tools && a.name == b.name ==> a == b
  }

  lemma {:induction false} MatchingCounts(q: Query, catalog: seq<Tool>, t: Tool)
    ensures multiset(Matching(q, catalog))[t] == if Matches(q, t) then multiset(catalog)[t] else 0
  {
    if catalog != [] {
      MatchingCounts(q, catalog[1..], t);
      assert catalog == [catalog[0]] + catalog[1..];
      MultisetOfAppend([catalog[0]], catalog[1..]);
      MultisetOfAppend(if Matches(q, catalog[0]) then [catalog[0]] else [], Matching(q, catalog[1..]));
    }
  }

  lemma SameMembers(xs: seq<Tool>, ys: seq<Tool>, t: Tool)
    requires multiset(xs) == multiset(ys)
    ensures t in xs <==> t in ys
  {
    assert t in multiset(xs) <==> t in multiset(ys);
  }

  lemma SameTails(xs: seq<Tool>, ys: seq<Tool>)
    requires xs != [] && ys != [] && xs[0] == ys[0] && multiset(xs) == multiset(ys)
    ensures multiset(xs[1..]) == multiset(ys[1..])
  {
    assert xs == [xs[0]] + xs[1..] && ys == [ys[0]] + ys[1..];
    MultisetOfAppend([xs[0]], xs[1..]);
    MultisetOfAppend([ys[0]], ys[1..]);
    assert multiset(xs[1..]) == multiset(xs) - multiset([xs[0]]);
    assert multiset(ys[1..]) == multiset(ys) - multiset([ys[0]]);
  }

  lemma SameFirst(q: Query, xs: seq<Tool>, ys: seq<Tool>)
    requires xs != [] && ys != [] && InRankOrder(q, xs) && InRankOrder(q, ys) && NamesIdentify(xs)
    requires multiset(xs) == multiset(ys)
    ensures xs[0] == ys[0]
  {
    SameMembers(xs, ys, xs[0]);
    SameMembers(xs, ys, ys[0]);
    FirstInRankOrder(q, xs, ys[0]);
    FirstInRankOrder(q, ys, xs[0]);
    CompareEqual(xs[0].name, ys[0].name);
  }

  lemma {:induction false} RankOrderIsUnique(q: Query, xs: seq<Tool>, ys: seq<Tool>)
    requires InRankOrder(q, xs) && InRankOrder(q, ys) && NamesIdentify(xs)
    requires multiset(xs) == multiset(ys)
    ensures xs == ys
  {
    assert |multiset(xs)| == |xs| && |multiset(ys)| == |ys|;
    if xs != [] {
      SameFirst(q, xs, ys);
      SameTails(xs, ys);
      RankOrderIsUnique(q, xs[1..], ys[1..]);
      assert xs == [xs[0]] + xs[1..] && ys == [ys[0]] + ys[1..];
    }
  }

  lemma FirstInRankOrder(q: Query, xs: seq<Tool>, t: Tool)
    requires InRankOrder(q, xs) && t in xs
    ensures !Before(q, t, xs[0])
  {
    CompareEqual(t.name, t.name);
  }

  /** The tie-break by name makes the ranking independent of the order of the catalog. */
  lemma SearchIgnoresCatalogOrder(rules: TextRules, a: seq<Tool>, b: seq<Tool>, query: string)
    requires multiset(a) == multiset(b) && NamesIdentify(a)
    ensures Search(rules, a, query) == Search(rules, b, query)
  {
    var q := Query(rules, rules.words(rules.lower(query)));
    forall t ensures multiset(Matching(q, a))[t] == multiset(Matching(q, b))[t] {
      MatchingCounts(q, a, t);
      MatchingCounts(q, b, t);
    }
    assert multiset(Matching(q, a)) == multiset(Matching(q, b));
    SearchCorrect(rules, a, query);
    SearchCorrect(rules, b, query);
    RankOrderIsUnique(q, Search(rules, a, query), Search(rules, b, query));
  }

  // ----- staging -----

  datatype SearchResponse = SearchResponse(results: seq<ToolMatch>, additional: seq<ToolMatch>)

  function MatchesOf(tools: seq<Tool>): seq<ToolMatch> {
    seq(|tools|, i requires 0 <= i < |tools| => MatchOf(tools[i]))
  }

  function AutoLoaded(found: seq<Tool>): seq<Tool> {
    if |found| <= MAX_AUTO_LOADED_MATCHES then found else found[..MAX_AUTO_LOADED_MATCHES]
  }

  /** At most eight tools are loaded at once, the first ones found. */
  lemma AutoLoadedAreFirst(found: seq<Tool>)
    ensures AutoLoaded(found) <= found && |AutoLoaded(found)| == if |found| < 8 then |found| else 8
  {
  }

  /** Tools are reported in order, by name and description. */
  lemma ReportedAsDeclared(tools: seq<Tool>)
    ensures |MatchesOf(tools)| == |tools|
    ensures forall i :: 0 <= i < |tools| ==>
              MatchesOf(tools)[i].name == tools[i].name && MatchesOf(tools)[i].description == tools[i].description
  {
  }

  /** What is staged outranks what is left for an explicit load; only a full batch leaves anything. */
  lemma BestMatchesAreStaged(rules: TextRules, catalog: seq<Tool>, query: string, rest: Tool)
    requires rest in Search(rules, catalog, query)[|AutoLoaded(Search(rules, catalog, query))|..]
    ensures |AutoLoaded(Search(rules, catalog, query))| == 8
    ensures var q := Query(rules, rules.words(rules.lower(query)));
            forall t :: t in AutoLoaded(Search(rules, catalog, query)) ==> !Before(q, rest, t)
  {
    SearchCorrect(rules, catalog, query);
    var found := Search(rules, catalog, query);
    var n := |AutoLoaded(found)|;
    var j :| 0 <= j < |found[n..]| && found[n..][j] == rest;
    assert found[n + j] == rest;
  }

  /** The closure's effect on the staging buffer, if the request has a loader. */
  method SearchAndStage(rules: TextRules, catalog: seq<Tool>, query: string, buffer: Option<seq<Tool>>)
    returns (response: SearchResponse, staged: Option<seq<Tool>>)
    ensures staged == match buffer
              case None => None
              case Some(tools) => Some(tools + AutoLoaded(Search(rules, catalog, query)))
    ensures response.results == MatchesOf(AutoLoaded(Search(rules, catalog, query)))
    ensures response.results + response.additional == MatchesOf(Search(rules, catalog, query))
  {
    var found := Search(rules, catalog, query);
    var split := if |found| < MAX_AUTO_LOADED_MATCHES then |found| else MAX_AUTO_LOADED_MATCHES;
    var loaded, additional := found[..split], found[split..];
    assert loaded == AutoLoaded(found);
    staged := buffer;
    if staged.Some? && loaded != [] {
      staged := Some(staged.value + loaded);
    }
    AppendNothing(if buffer.Some? then buffer.value else []);
    assert found == loaded + additional;
    response := SearchResponse(MatchesOf(loaded), MatchesOf(additional));
  }

  // ----- loading by name -----

  /** The first tool of that name. */
  function Find(catalog: seq<Tool>, name: string): (r: Option<Tool>)
    ensures r.Some? <==> exists t :: t in catalog && t.name == name
    ensures r.Some? ==> r.value in catalog && r.value.name == name
  {
    if catalog == [] then None
    else if catalog[0].name == name then Some(catalog[0])
    else
      assert forall t :: t in catalog <==> t == catalog[0] || t in catalog[1..];
      Find(catalog[1..], name)
  }

  function FoundTools(catalog: seq<Tool>, names: seq<string>): seq<Tool> {
    if names == [] then []
    else
      var n := |names| - 1;
      FoundTools(catalog, names[..n])
      + match Find(catalog, names[n]) case Some(t) => [t] case None => []
  }

  function MissingNames(catalog: seq<Tool>, names: seq<string>): seq<string> {
    if names == [] then []
    else
      var n := |names| - 1;
      MissingNames(catalog, names[..n]) + if Find(catalog, names[n]).Some? then [] else [names[n]]
  }

  function NamesOf(tools: seq<Tool>): seq<string> {
    seq(|tools|, i requires 0 <= i < |tools| => tools[i].name)
  }

  lemma NamesSnoc(tools: seq<Tool>, t: Tool)
    ensures NamesOf(tools + [t]) == NamesOf(tools) + [t.name]
  {
  }

  /** Every requested name is reported once, as loaded or as not found. */
  lemma {:induction false} LoadReportsEachName(catalog: seq<Tool>, names: seq<string>)
    ensures multiset(NamesOf(FoundTools(catalog, names))) + multiset(MissingNames(catalog, names)) == multiset(names)
  {
    if names != [] {
      var n := |names| - 1;
      LoadReportsEachName(catalog, names[..n]);
      ReportNext(catalog, names[..n], names[n]);
      assert names == names[..n] + [names[n]];
    }
  }

  lemma ReportNext(catalog: seq<Tool>, names: seq<string>, name: string)
    ensures var found, missing := NamesOf(FoundTools(catalog, names)), MissingNames(catalog, names);
            multiset(NamesOf(FoundTools(catalog, names + [name]))) + multiset(MissingNames(catalog, names + [name]))
            == multiset(found) + multiset(missing) + multiset{name}
  {
    var found := FoundTools(catalog, names);
    assert (names + [name])[..|names|] == names;
    AppendNothing(found);
    AppendNothing(MissingNames(catalog, names));
    if Find(catalog, name).Some? {
      NamesSnoc(found, Find(catalog, name).value);
    }
  }

  /** It is loaded if the catalog has it, and not found if it does not. */
  lemma {:induction false} LoadReportsTruly(catalog: seq<Tool>, names: seq<string>)
    ensures forall t :: t in FoundTools(catalog, names) ==> t in catalog
    ensures forall name :: name in MissingNames(catalog, names) ==> !exists t :: t in catalog && t.name == name
  {
    if names != [] {
      LoadReportsTruly(catalog, names[..|names| - 1]);
    }
  }

  method LoadTools(catalog: seq<Tool>, names: seq<string>, buffer: Option<seq<Tool>>)
    returns (loaded: seq<ToolMatch>, notFound: seq<string>, staged: Option<seq<Tool>>)
    ensures loaded == MatchesOf(FoundTools(catalog, names)) && notFound == MissingNames(catalog, names)
    ensures staged == match buffer
              case None => None
              case Some(tools) => Some(tools + FoundTools(catalog, names))
  {
    var toLoad: seq<Tool> := [];
    loaded, notFound := [], [];
    for i := 0 to |names|
      invariant toLoad == FoundTools(catalog, names[..i]) && notFound == MissingNames(catalog, names[..i])
      invariant loaded == MatchesOf(toLoad)
    {
      assert names[..i + 1][..i] == names[..i];
      match Find(catalog, names[i])
      case Some(t) =>
        loaded := loaded + [MatchOf(t)];
        toLoad := toLoad + [t];
      case None =>
        notFound := notFound + [names[i]];
    }
    assert names[..|names|] == names;
    AppendNothing(if buffer.Some? then buffer.value else []);
    staged := buffer;
    if toLoad != [] && staged.Some? {
      staged := Some(staged.value + toLoad);
    }
  }
}
