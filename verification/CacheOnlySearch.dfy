/** `selectionSetHasCacheOnly`: does an operation select any `@cacheOnly` field? */
module CacheOnlySearch {
  import opened Outcomes
  import opened ProjectionDocument

  /** `Err(name)` is the thrown "unknown fragment" error. */
  type Search = Result<bool, string>

  function HasCacheOnly(selections: seq<Selection>, fragments: FragmentMap, active: set<string>): Search
    decreases |Inactive(fragments, active)|, Size(selections), 1
  {
    if selections == [] then Ok(false)
    else
      match SelectionHasCacheOnly(selections[0], fragments, active)
      case Err(e) => Err(e)
      case Ok(true) => Ok(true)
      case Ok(false) => HasCacheOnly(selections[1..], fragments, active)
  }

  function SelectionHasCacheOnly(selection: Selection, fragments: FragmentMap, active: set<string>): Search
    decreases |Inactive(fragments, active)|, SelectionSize(selection), 0
  {
    match selection
    case Field(field) =>
      if IsCacheOnly(field) then Ok(true)
      else (match field.selectionSet
            case Present(sub) => HasCacheOnly(sub, fragments, active)
            case Absent => Ok(false))
    case InlineFragment(_, sub) => HasCacheOnly(sub, fragments, active)
    case FragmentSpread(name) =>
      if name !in fragments then Err(name)
      else if name in active then Ok(false)
      else
        EnteringShrinksInactive(fragments, active, name);
        HasCacheOnly(fragments[name].selectionSet, fragments, active + {name})
  }

  // ----- what the search is for: reachability, stated without any active set -----

  /** A `@cacheOnly` field occurs in `selections` without entering a named fragment. */
  predicate HasDirectCacheOnly(selections: seq<Selection>)
  {
    selections != [] && (HeadHasDirectCacheOnly(selections[0]) || HasDirectCacheOnly(selections[1..]))
  }

  predicate HeadHasDirectCacheOnly(selection: Selection) {
    match selection
    case Field(field) => "cacheOnly" in field.directives ||
        (match field.selectionSet case Present(sub) => HasDirectCacheOnly(sub) case Absent => false)
    case InlineFragment(_, sub) => HasDirectCacheOnly(sub)
    case FragmentSpread(_) => false
  }

  /** Every fragment spread in `selections`, at any depth, through fields and inline fragments. */
  function SpreadsIn(selections: seq<Selection>): set<string> {
    if selections == [] then {} else SpreadsInHead(selections[0]) + SpreadsIn(selections[1..])
  }

  function SpreadsInHead(selection: Selection): set<string> {
    match selection
    case Field(field) => (match field.selectionSet case Present(sub) => SpreadsIn(sub) case Absent => {})
    case InlineFragment(_, sub) => SpreadsIn(sub)
    case FragmentSpread(name) => {name}
  }

  /** `path` is a chain of spreads starting in `selections`, each found in the fragment before it. */
  predicate Walk(selections: seq<Selection>, fragments: FragmentMap, path: seq<string>)
    decreases |path|
  {
    path == [] ||
    (path[0] in SpreadsIn(selections) && path[0] in fragments
     && Walk(fragments[path[0]].selectionSet, fragments, path[1..]))
  }

  /** The selections a walk ends in. */
  function WalkEnd(selections: seq<Selection>, fragments: FragmentMap, path: seq<string>): seq<Selection>
    requires Walk(selections, fragments, path)
    decreases |path|
  {
    if path == [] then selections else WalkEnd(fragments[path[0]].selectionSet, fragments, path[1..])
  }

  ghost predicate ReachesVia(selections: seq<Selection>, fragments: FragmentMap, path: seq<string>) {
    Walk(selections, fragments, path) && HasDirectCacheOnly(WalkEnd(selections, fragments, path))
  }

  ghost predicate ReachesCacheOnly(selections: seq<Selection>, fragments: FragmentMap) {
    exists path :: ReachesVia(selections, fragments, path)
  }

  predicate Avoids(path: seq<string>, active: set<string>) {
    forall n :: n in path ==> n !in active
  }

  ghost predicate AllSpreadsDefined(selections: seq<Selection>, fragments: FragmentMap) {
    SpreadsIn(selections) <= fragments.Keys
    && forall n :: n in fragments ==> SpreadsIn(fragments[n].selectionSet) <= fragments.Keys
  }

  /** A positive answer always has a walk behind it. */
  lemma {:induction false} FoundIsReachable(selections: seq<Selection>, fragments: FragmentMap, active: set<string>)
    returns (path: seq<string>)
    requires HasCacheOnly(selections, fragments, active) == Ok(true)
    ensures ReachesVia(selections, fragments, path)
    decreases |Inactive(fragments, active)|, Size(selections), 1
  {
    if SelectionHasCacheOnly(selections[0], fragments, active) == Ok(true) {
      path := FoundInHead(selections[0], fragments, active);
      if path == [] {
        assert HeadHasDirectCacheOnly(selections[0]);
      }
    } else {
      path := FoundIsReachable(selections[1..], fragments, active);
    }
  }

  lemma {:induction false} FoundInHead(selection: Selection, fragments: FragmentMap, active: set<string>)
    returns (path: seq<string>)
    requires SelectionHasCacheOnly(selection, fragments, active) == Ok(true)
    ensures path == [] ==> HeadHasDirectCacheOnly(selection)
    ensures path != [] ==>
              path[0] in SpreadsInHead(selection) && path[0] in fragments
              && ReachesVia(fragments[path[0]].selectionSet, fragments, path[1..])
    decreases |Inactive(fragments, active)|, SelectionSize(selection), 0
  {
    match selection
    case Field(field) =>
      if IsCacheOnly(field) {
        path := [];
      } else {
        path := FoundIsReachable(field.selectionSet.selections, fragments, active);
      }
    case InlineFragment(_, sub) => path := FoundIsReachable(sub, fragments, active);
    case FragmentSpread(name) =>
      EnteringShrinksInactive(fragments, active, name);
      var rest := FoundIsReachable(fragments[name].selectionSet, fragments, active + {name});
      path := [name] + rest;
      assert path[1..] == rest;
  }

  /** Everything after the last visit of `name`: a walk from that fragment which never returns to it. */
  lemma {:induction false} CutToLastVisit(name: string, fragments: FragmentMap, path: seq<string>)
    returns (rest: seq<string>)
    requires name in fragments && ReachesVia(fragments[name].selectionSet, fragments, path)
    ensures ReachesVia(fragments[name].selectionSet, fragments, rest)
    ensures name !in rest && |rest| <= |path|
    ensures forall n :: n in rest ==> n in path
  {
    if name !in path {
      rest := path;
    } else {
      var i :| 0 <= i < |path| && path[i] == name;
      WalkSuffix(fragments[name].selectionSet, fragments, path, i);
      rest := CutToLastVisit(name, fragments, path[i + 1..]);
    }
  }

  lemma {:induction false} WalkSuffix(selections: seq<Selection>, fragments: FragmentMap, path: seq<string>, i: nat)
    requires i < |path| && ReachesVia(selections, fragments, path)
    ensures path[i] in fragments && ReachesVia(fragments[path[i]].selectionSet, fragments, path[i + 1..])
    decreases i
  {
    if i > 0 {
      WalkSuffix(fragments[path[0]].selectionSet, fragments, path[1..], i - 1);
      assert path[1..][i..] == path[i + 1..];
    }
  }

  /** A negative answer excludes every walk that avoids the active fragments. */
  lemma {:induction false} NotFoundIsUnreachable(
    selections: seq<Selection>, fragments: FragmentMap, active: set<string>, path: seq<string>)
    requires HasCacheOnly(selections, fragments, active) == Ok(false)
    requires Avoids(path, active)
    ensures !ReachesVia(selections, fragments, path)
    decreases |Inactive(fragments, active)|, Size(selections), 1
  {
    if selections != [] && ReachesVia(selections, fragments, path) {
      if (path == [] && !HeadHasDirectCacheOnly(selections[0]))
         || (path != [] && path[0] !in SpreadsInHead(selections[0]))
      {
        NotFoundIsUnreachable(selections[1..], fragments, active, path);
        assert false;
      } else {
        NotFoundInHead(selections[0], fragments, active, path);
        assert false;
      }
    }
  }

  lemma {:induction false} NotFoundInHead(
    selection: Selection, fragments: FragmentMap, active: set<string>, path: seq<string>)
    requires SelectionHasCacheOnly(selection, fragments, active) == Ok(false)
    requires Avoids(path, active)
    ensures path == [] ==> !HeadHasDirectCacheOnly(selection)
    ensures path != [] && path[0] in SpreadsInHead(selection) && path[0] in fragments ==>
              !ReachesVia(fragments[path[0]].selectionSet, fragments, path[1..])
    decreases |Inactive(fragments, active)|, SelectionSize(selection), 0
  {
    match selection
    case Field(field) =>
      if field.selectionSet.Present? {
        NotFoundIsUnreachable(field.selectionSet.selections, fragments, active, path);
      }
    case InlineFragment(_, sub) => NotFoundIsUnreachable(sub, fragments, active, path);
    case FragmentSpread(name) =>
      if path != [] && path[0] == name {
        NotFoundInFragment(name, fragments, active, path[1..]);
      }
  }

  lemma {:induction false} NotFoundInFragment(
    name: string, fragments: FragmentMap, active: set<string>, path: seq<string>)
    requires name in fragments && name !in active
    requires HasCacheOnly(fragments[name].selectionSet, fragments, active + {name}) == Ok(false)
    requires Avoids(path, active)
    ensures !ReachesVia(fragments[name].selectionSet, fragments, path)
    decreases |Inactive(fragments, active)|, 0, 0
  {
    if ReachesVia(fragments[name].selectionSet, fragments, path) {
      var rest := CutToLastVisit(name, fragments, path);
      EnteringShrinksInactive(fragments, active, name);
      assert Avoids(rest, active + {name});
      NotFoundIsUnreachable(fragments[name].selectionSet, fragments, active + {name}, rest);
      assert false;
    }
  }

  /** With every spread defined, nothing is thrown. */
  lemma {:induction false} DefinedSpreadsDoNotThrow(
    selections: seq<Selection>, fragments: FragmentMap, active: set<string>)
    requires AllSpreadsDefined(selections, fragments)
    ensures HasCacheOnly(selections, fragments, active).Ok?
    decreases |Inactive(fragments, active)|, Size(selections)
  {
    if selections != [] {
      var head := selections[0];
      assert Size(selections) == SelectionSize(head) + Size(selections[1..]);
      assert SpreadsIn(selections) == SpreadsInHead(head) + SpreadsIn(selections[1..]);
      match head {
        case Field(field) =>
          if field.selectionSet.Present? {
            DefinedSpreadsDoNotThrow(field.selectionSet.selections, fragments, active);
          }
        case InlineFragment(_, sub) => DefinedSpreadsDoNotThrow(sub, fragments, active);
        case FragmentSpread(name) =>
          if name !in active {
            EnteringShrinksInactive(fragments, active, name);
            DefinedSpreadsDoNotThrow(fragments[name].selectionSet, fragments, active + {name});
          }
      }
      DefinedSpreadsDoNotThrow(selections[1..], fragments, active);
    }
  }

  /**
   * Cutting off active fragments loses nothing: whenever the search answers, its answer is
   * reachability through sub-selections, inline fragments and any chain of spreads; and it answers
   * whenever every spread is defined.
   */
  lemma HasCacheOnlyIsReachability(selections: seq<Selection>, fragments: FragmentMap)
    ensures HasCacheOnly(selections, fragments, {}).Ok? ==>
              (HasCacheOnly(selections, fragments, {}).value <==> ReachesCacheOnly(selections, fragments))
    ensures AllSpreadsDefined(selections, fragments) ==> HasCacheOnly(selections, fragments, {}).Ok?
  {
    var found := HasCacheOnly(selections, fragments, {});
    if found == Ok(true) {
      var path := FoundIsReachable(selections, fragments, {});
    } else if found == Ok(false) {
      forall path ensures !ReachesVia(selections, fragments, path) {
        NotFoundIsUnreachable(selections, fragments, {}, path);
      }
    }
    if AllSpreadsDefined(selections, fragments) {
      DefinedSpreadsDoNotThrow(selections, fragments, {});
    }
  }
}
