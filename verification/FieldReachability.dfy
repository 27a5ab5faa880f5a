/**
 * The compiler collects fields under a path-wise "active" set, a server under a "visited" set. Both
 * are related here to reachability through applicable fragments, which mentions neither.
 */
module FieldReachability {
  import opened GraphqlTypes
  import opened ProjectionDocument
  import opened ProjectionRender
  import opened ResponseSemantics
  import opened CacheOnlySearch

  /** The fields and spreads of `selections`, with applicable inline fragments expanded. */
  function Flatten(schema: Schema, concrete: string, selections: seq<Selection>): seq<Selection> {
    if selections == [] then []
    else FlattenHead(schema, concrete, selections[0]) + Flatten(schema, concrete, selections[1..])
  }

  function FlattenHead(schema: Schema, concrete: string, selection: Selection): seq<Selection> {
    match selection
    case Field(_) => [selection]
    case FragmentSpread(_) => [selection]
    case InlineFragment(typeCondition, sub) =>
      if typeCondition.Some? && !TypeConditionApplies(schema, typeCondition.value, concrete) then []
      else Flatten(schema, concrete, sub)
  }

  predicate Applies(schema: Schema, fragments: FragmentMap, concrete: string, name: string) {
    name in fragments && TypeConditionApplies(schema, fragments[name].typeCondition, concrete)
  }

  /** `field` is selected on `concrete`, through the chain of applicable fragments `path`. */
  ghost predicate Reaches(schema: Schema, fragments: FragmentMap, concrete: string,
                          selections: seq<Selection>, field: FieldNode, path: seq<string>)
    decreases |path|
  {
    if path == [] then Field(field) in Flatten(schema, concrete, selections)
    else
      && FragmentSpread(path[0]) in Flatten(schema, concrete, selections)
      && Applies(schema, fragments, concrete, path[0])
      && Reaches(schema, fragments, concrete, fragments[path[0]].selectionSet, field, path[1..])
  }

  lemma {:induction false} FlattenAppend(schema: Schema, concrete: string, a: seq<Selection>, b: seq<Selection>)
    ensures Flatten(schema, concrete, a + b) == Flatten(schema, concrete, a) + Flatten(schema, concrete, b)
  {
    if a == [] {
      assert a + b == b;
    } else {
      assert (a + b)[1..] == a[1..] + b;
      FlattenAppend(schema, concrete, a[1..], b);
    }
  }

  /** Whatever is in a flattened selection set comes from one of its selections. */
  lemma {:induction false} FlattenOrigin(schema: Schema, concrete: string, selections: seq<Selection>, atom: Selection)
    ensures atom in Flatten(schema, concrete, selections) <==>
            exists s :: s in selections && atom in FlattenHead(schema, concrete, s)
  {
    if selections != [] {
      FlattenOrigin(schema, concrete, selections[1..], atom);
      if atom in FlattenHead(schema, concrete, selections[0]) {
        assert selections[0] in selections;
      } else if atom in Flatten(schema, concrete, selections[1..]) {
        var s :| s in selections[1..] && atom in FlattenHead(schema, concrete, s);
        assert s in selections;
      } else {
        assert forall s :: s in selections ==> s == selections[0] || s in selections[1..];
      }
    }
  }

  lemma FlattenMonotone(schema: Schema, concrete: string, fewer: seq<Selection>, more: seq<Selection>, atom: Selection)
    requires forall s :: s in fewer ==> s in more
    requires atom in Flatten(schema, concrete, fewer)
    ensures atom in Flatten(schema, concrete, more)
  {
    FlattenOrigin(schema, concrete, fewer, atom);
    FlattenOrigin(schema, concrete, more, atom);
  }

  lemma {:induction false} FlattenSpreads(schema: Schema, concrete: string, selections: seq<Selection>, name: string)
    requires FragmentSpread(name) in Flatten(schema, concrete, selections)
    ensures name in SpreadsIn(selections)
  {
    if FragmentSpread(name) in FlattenHead(schema, concrete, selections[0]) {
      FlattenHeadSpreads(schema, concrete, selections[0], name);
    } else {
      FlattenSpreads(schema, concrete, selections[1..], name);
    }
  }

  lemma {:induction false} FlattenHeadSpreads(schema: Schema, concrete: string, selection: Selection, name: string)
    requires FragmentSpread(name) in FlattenHead(schema, concrete, selection)
    ensures name in SpreadsInHead(selection)
  {
    if selection.InlineFragment? {
      FlattenSpreads(schema, concrete, selection.selectionSet, name);
    }
  }

  /** Reaching a field walks the fragment graph. */
  lemma {:induction false} ReachesWalks(schema: Schema, fragments: FragmentMap, concrete: string,
                                        selections: seq<Selection>, field: FieldNode, path: seq<string>)
    requires Reaches(schema, fragments, concrete, selections, field, path)
    ensures Walk(selections, fragments, path)
    decreases |path|
  {
    if path != [] {
      FlattenSpreads(schema, concrete, selections, path[0]);
      ReachesWalks(schema, fragments, concrete, fragments[path[0]].selectionSet, field, path[1..]);
    }
  }

  // ----- the server reaches exactly the reachable fields -----

  /** Every field and applicable fragment of `selections` is accounted for. */
  ghost predicate Settled(schema: Schema, concrete: string, selections: seq<Selection>,
                          fields: seq<FieldNode>, visited: set<string>)
  {
    && (forall f :: Field(f) in Flatten(schema, concrete, selections) ==> f in fields)
    && (forall n :: FragmentSpread(n) in Flatten(schema, concrete, selections) ==> n in visited)
  }

  ghost predicate SettledBetween(schema: Schema, fragments: FragmentMap, concrete: string,
                                 before: set<string>, fields: seq<FieldNode>, after: set<string>)
  {
    forall n :: n in after && n !in before && Applies(schema, fragments, concrete, n) ==>
                  Settled(schema, concrete, fragments[n].selectionSet, fields, after)
  }

  lemma {:induction false} ServerSettles(schema: Schema, fragments: FragmentMap, concrete: string,
                                         selections: seq<Selection>, visited: set<string>)
    ensures var (fields, after) := CollectResponse(schema, fragments, concrete, selections, visited);
            Settled(schema, concrete, selections, fields, after)
            && SettledBetween(schema, fragments, concrete, visited, fields, after)
    decreases |Inactive(fragments, visited)|, Size(selections), 1
  {
    if selections != [] {
      var (first, visited1) := CollectResponseHead(schema, fragments, concrete, selections[0], visited);
      ServerSettlesHead(schema, fragments, concrete, selections[0], visited);
      VisitingShrinksInactive(fragments, visited, visited1);
      ServerSettles(schema, fragments, concrete, selections[1..], visited1);
    }
  }

  lemma {:induction false} ServerSettlesHead(schema: Schema, fragments: FragmentMap, concrete: string,
                                             selection: Selection, visited: set<string>)
    ensures var (fields, after) := CollectResponseHead(schema, fragments, concrete, selection, visited);
            && (forall f :: Field(f) in FlattenHead(schema, concrete, selection) ==> f in fields)
            && (forall n :: FragmentSpread(n) in FlattenHead(schema, concrete, selection) ==> n in after)
            && SettledBetween(schema, fragments, concrete, visited, fields, after)
    decreases |Inactive(fragments, visited)|, SelectionSize(selection), 0
  {
    match selection
    case Field(field) =>
    case FragmentSpread(name) =>
      if name !in visited && Applies(schema, fragments, concrete, name) {
        EnteringShrinksInactive(fragments, visited, name);
        ServerSettles(schema, fragments, concrete, fragments[name].selectionSet, visited + {name});
      }
    case InlineFragment(typeCondition, sub) => ServerSettles(schema, fragments, concrete, sub, visited);
  }

  lemma {:induction false} SettledReaches(schema: Schema, fragments: FragmentMap, concrete: string,
                                          selections: seq<Selection>, field: FieldNode, path: seq<string>,
                                          fields: seq<FieldNode>, visited: set<string>)
    requires Reaches(schema, fragments, concrete, selections, field, path)
    requires Settled(schema, concrete, selections, fields, visited)
    requires SettledBetween(schema, fragments, concrete, {}, fields, visited)
    ensures field in fields
    decreases |path|
  {
    if path != [] {
      SettledReaches(schema, fragments, concrete, fragments[path[0]].selectionSet, field, path[1..], fields, visited);
    }
  }

  /** Visiting each fragment only once still reaches everything reachable. */
  lemma ReachedIsAnswered(schema: Schema, fragments: FragmentMap, concrete: string,
                          selections: seq<Selection>, field: FieldNode, path: seq<string>)
    requires Reaches(schema, fragments, concrete, selections, field, path)
    ensures field in ResponseFields(schema, fragments, concrete, selections)
  {
    ServerSettles(schema, fragments, concrete, selections, {});
    var (fields, visited) := CollectResponse(schema, fragments, concrete, selections, {});
    SettledReaches(schema, fragments, concrete, selections, field, path, fields, visited);
  }

  lemma {:induction false} AnsweredIsReached(schema: Schema, fragments: FragmentMap, concrete: string,
                                             selections: seq<Selection>, visited: set<string>, field: FieldNode)
    returns (path: seq<string>)
    requires field in CollectResponse(schema, fragments, concrete, selections, visited).0
    ensures Reaches(schema, fragments, concrete, selections, field, path)
    decreases |Inactive(fragments, visited)|, Size(selections), 1
  {
    var (first, visited1) := CollectResponseHead(schema, fragments, concrete, selections[0], visited);
    if field in first {
      path := AnsweredHeadIsReached(schema, fragments, concrete, selections[0], visited, field);
    } else {
      VisitingShrinksInactive(fragments, visited, visited1);
      path := AnsweredIsReached(schema, fragments, concrete, selections[1..], visited1, field);
    }
  }

  lemma {:induction false} AnsweredHeadIsReached(schema: Schema, fragments: FragmentMap, concrete: string,
                                                 selection: Selection, visited: set<string>, field: FieldNode)
    returns (path: seq<string>)
    requires field in CollectResponseHead(schema, fragments, concrete, selection, visited).0
    ensures path == [] ==> Field(field) in FlattenHead(schema, concrete, selection)
    ensures path != [] ==>
              && FragmentSpread(path[0]) in FlattenHead(schema, concrete, selection)
              && Applies(schema, fragments, concrete, path[0])
              && Reaches(schema, fragments, concrete, fragments[path[0]].selectionSet, field, path[1..])
    decreases |Inactive(fragments, visited)|, SelectionSize(selection), 0
  {
    match selection
    case Field(f) => path := [];
    case FragmentSpread(name) =>
      EnteringShrinksInactive(fragments, visited, name);
      var rest := AnsweredIsReached(schema, fragments, concrete, fragments[name].selectionSet, visited + {name}, field);
      path := [name] + rest;
      assert path[1..] == rest;
    case InlineFragment(typeCondition, sub) =>
      path := AnsweredIsReached(schema, fragments, concrete, sub, visited, field);
  }

  // ----- the compiler collects only reachable fields -----

  lemma {:induction false} CollectedIsReached(
    schema: Schema, fragments: FragmentMap, concrete: string,
    scope: string, selections: seq<Selection>, active: set<string>, c: FieldContext)
    returns (path: seq<string>)
    requires ValidSchema(schema) && concrete in PossibleObjectTypes(schema, scope)
    requires CollectFields(schema, fragments, concrete, scope, selections, active).Ok?
    requires c in CollectFields(schema, fragments, concrete, scope, selections, active).value
    ensures "cacheOnly" !in c.field.directives && concrete in PossibleObjectTypes(schema, c.scope)
    ensures Reaches(schema, fragments, concrete, selections, c.field, path)
    decreases |Inactive(fragments, active)|, Size(selections), 1
  {
    if c in CollectSelection(schema, fragments, concrete, scope, selections[0], active).value {
      path := CollectedHeadIsReached(schema, fragments, concrete, scope, selections[0], active, c);
    } else {
      path := CollectedIsReached(schema, fragments, concrete, scope, selections[1..], active, c);
    }
  }

  lemma {:induction false} CollectedHeadIsReached(
    schema: Schema, fragments: FragmentMap, concrete: string,
    scope: string, selection: Selection, active: set<string>, c: FieldContext)
    returns (path: seq<string>)
    requires ValidSchema(schema) && concrete in PossibleObjectTypes(schema, scope)
    requires CollectSelection(schema, fragments, concrete, scope, selection, active).Ok?
    requires c in CollectSelection(schema, fragments, concrete, scope, selection, active).value
    ensures "cacheOnly" !in c.field.directives && concrete in PossibleObjectTypes(schema, c.scope)
    ensures path == [] ==> Field(c.field) in FlattenHead(schema, concrete, selection)
    ensures path != [] ==>
              && FragmentSpread(path[0]) in FlattenHead(schema, concrete, selection)
              && Applies(schema, fragments, concrete, path[0])
              && Reaches(schema, fragments, concrete, fragments[path[0]].selectionSet, c.field, path[1..])
    decreases |Inactive(fragments, active)|, SelectionSize(selection), 0
  {
    PossibleAreObjects(schema, scope, concrete);
    match selection
    case Field(f) => path := [];
    case FragmentSpread(name) =>
      EnteringShrinksInactive(fragments, active, name);
      var rest := CollectedIsReached(schema, fragments, concrete, fragments[name].typeCondition,
                                     fragments[name].selectionSet, active + {name}, c);
      path := [name] + rest;
      assert path[1..] == rest;
    case InlineFragment(typeCondition, sub) =>
      var condition := if typeCondition.Some? then typeCondition.value else scope;
      path := CollectedIsReached(schema, fragments, concrete, condition, sub, active, c);
  }

  // ----- and, without fragment cycles, all of the visible ones -----

  /** Section 5.5.2.2: no fragment spreads itself, directly or through others. */
  ghost predicate NoFragmentCycles(fragments: FragmentMap) {
    forall n, path :: n in fragments && Walk(fragments[n].selectionSet, fragments, path) ==> n !in path
  }

  /** No walk from `selections` comes back to an active fragment. */
  ghost predicate WalksAvoid(selections: seq<Selection>, fragments: FragmentMap, active: set<string>) {
    forall path :: Walk(selections, fragments, path) ==> Avoids(path, active)
  }

  lemma {:induction false} ReachedIsCollected(
    schema: Schema, fragments: FragmentMap, concrete: string,
    scope: string, selections: seq<Selection>, active: set<string>, field: FieldNode, path: seq<string>)
    returns (c: FieldContext)
    requires ValidSchema(schema) && concrete in PossibleObjectTypes(schema, scope)
    requires NoFragmentCycles(fragments)
    requires CollectFields(schema, fragments, concrete, scope, selections, active).Ok?
    requires Reaches(schema, fragments, concrete, selections, field, path)
    requires Avoids(path, active) && !IsCacheOnly(field)
    ensures c in CollectFields(schema, fragments, concrete, scope, selections, active).value && c.field == field
    decreases |path|, Size(selections), 1
  {
    var atom := if path == [] then Field(field) else FragmentSpread(path[0]);
    if atom in FlattenHead(schema, concrete, selections[0]) {
      c := ReachedIsCollectedInHead(schema, fragments, concrete, scope, selections[0], active, field, path);
    } else {
      c := ReachedIsCollected(schema, fragments, concrete, scope, selections[1..], active, field, path);
    }
  }

  lemma {:induction false} ReachedIsCollectedInHead(
    schema: Schema, fragments: FragmentMap, concrete: string,
    scope: string, selection: Selection, active: set<string>, field: FieldNode, path: seq<string>)
    returns (c: FieldContext)
    requires ValidSchema(schema) && concrete in PossibleObjectTypes(schema, scope)
    requires NoFragmentCycles(fragments)
    requires CollectSelection(schema, fragments, concrete, scope, selection, active).Ok?
    requires path == [] ==> Field(field) in FlattenHead(schema, concrete, selection)
    requires path != [] ==>
               && FragmentSpread(path[0]) in FlattenHead(schema, concrete, selection)
               && Applies(schema, fragments, concrete, path[0])
               && Reaches(schema, fragments, concrete, fragments[path[0]].selectionSet, field, path[1..])
    requires Avoids(path, active) && !IsCacheOnly(field)
    ensures c in CollectSelection(schema, fragments, concrete, scope, selection, active).value && c.field == field
    decreases |path|, SelectionSize(selection), 0
  {
    PossibleAreObjects(schema, scope, concrete);
    match selection
    case Field(f) => c := FieldContext(field, scope, active);
    case FragmentSpread(name) =>
      ReachesWalks(schema, fragments, concrete, fragments[name].selectionSet, field, path[1..]);
      c := ReachedIsCollected(schema, fragments, concrete, fragments[name].typeCondition,
                              fragments[name].selectionSet, active + {name}, field, path[1..]);
    case InlineFragment(typeCondition, sub) =>
      var condition := if typeCondition.Some? then typeCondition.value else scope;
      c := ReachedIsCollected(schema, fragments, concrete, condition, sub, active, field, path);
  }

  /** The active set snapshotted for a field is never reached again beneath that field. */
  lemma {:induction false} SnapshotIsFresh(
    schema: Schema, fragments: FragmentMap, concrete: string,
    scope: string, selections: seq<Selection>, active: set<string>, c: FieldContext)
    requires NoFragmentCycles(fragments) && WalksAvoid(selections, fragments, active)
    requires CollectFields(schema, fragments, concrete, scope, selections, active).Ok?
    requires c in CollectFields(schema, fragments, concrete, scope, selections, active).value
    ensures WalksAvoid(SubSelections(c.field), fragments, c.active)
    decreases |Inactive(fragments, active)|, Size(selections), 1
  {
    var head := selections[0];
    if c in CollectSelection(schema, fragments, concrete, scope, head, active).value {
      forall path | HeadWalk(head, fragments, path) ensures Avoids(path, active) {
        assert Walk(selections, fragments, path);
      }
      assert HeadWalksAvoid(head, fragments, active);
      SnapshotIsFreshInHead(schema, fragments, concrete, scope, head, active, c);
    } else {
      forall path | Walk(selections[1..], fragments, path) ensures Avoids(path, active) {
        assert Walk(selections, fragments, path);
      }
      SnapshotIsFresh(schema, fragments, concrete, scope, selections[1..], active, c);
    }
  }

  predicate HeadWalk(selection: Selection, fragments: FragmentMap, path: seq<string>) {
    path == [] ||
    (path[0] in SpreadsInHead(selection) && path[0] in fragments
     && Walk(fragments[path[0]].selectionSet, fragments, path[1..]))
  }

  ghost predicate HeadWalksAvoid(selection: Selection, fragments: FragmentMap, active: set<string>) {
    forall path :: HeadWalk(selection, fragments, path) ==> Avoids(path, active)
  }

  lemma SubWalksAvoid(selection: Selection, sub: seq<Selection>, fragments: FragmentMap, active: set<string>)
    requires HeadWalksAvoid(selection, fragments, active) && SpreadsIn(sub) == SpreadsInHead(selection)
    ensures WalksAvoid(sub, fragments, active)
  {
    forall path | Walk(sub, fragments, path) ensures Avoids(path, active) {
      assert HeadWalk(selection, fragments, path);
    }
  }

  lemma BodyWalksAvoid(name: string, fragments: FragmentMap, active: set<string>)
    requires name in fragments && NoFragmentCycles(fragments)
    requires HeadWalksAvoid(FragmentSpread(name), fragments, active)
    ensures WalksAvoid(fragments[name].selectionSet, fragments, active + {name})
  {
    forall path | Walk(fragments[name].selectionSet, fragments, path) ensures Avoids(path, active + {name}) {
      var longer := [name] + path;
      assert longer[1..] == path && HeadWalk(FragmentSpread(name), fragments, longer);
      assert forall n :: n in path ==> n in longer;
    }
  }

  lemma {:induction false} SnapshotIsFreshInHead(
    schema: Schema, fragments: FragmentMap, concrete: string,
    scope: string, selection: Selection, active: set<string>, c: FieldContext)
    requires NoFragmentCycles(fragments)
    requires HeadWalksAvoid(selection, fragments, active)
    requires CollectSelection(schema, fragments, concrete, scope, selection, active).Ok?
    requires c in CollectSelection(schema, fragments, concrete, scope, selection, active).value
    ensures WalksAvoid(SubSelections(c.field), fragments, c.active)
    decreases |Inactive(fragments, active)|, SelectionSize(selection), 0
  {
    match selection
    case Field(f) => SubWalksAvoid(selection, SubSelections(f), fragments, active);
    case FragmentSpread(name) => SnapshotIsFreshInSpread(schema, fragments, concrete, scope, name, active, c);
    case InlineFragment(typeCondition, sub) =>
      var condition := if typeCondition.Some? then typeCondition.value else scope;
      SubWalksAvoid(selection, sub, fragments, active);
      SnapshotIsFresh(schema, fragments, concrete, condition, sub, active, c);
  }

  lemma {:induction false} SnapshotIsFreshInSpread(
    schema: Schema, fragments: FragmentMap, concrete: string,
    scope: string, name: string, active: set<string>, c: FieldContext)
    requires NoFragmentCycles(fragments)
    requires HeadWalksAvoid(FragmentSpread(name), fragments, active)
    requires CollectSelection(schema, fragments, concrete, scope, FragmentSpread(name), active).Ok?
    requires c in CollectSelection(schema, fragments, concrete, scope, FragmentSpread(name), active).value
    ensures WalksAvoid(SubSelections(c.field), fragments, c.active)
    decreases |Inactive(fragments, active)|, 0, 0
  {
    BodyWalksAvoid(name, fragments, active);
    EnteringShrinksInactive(fragments, active, name);
    SnapshotIsFresh(schema, fragments, concrete, fragments[name].typeCondition,
                    fragments[name].selectionSet, active + {name}, c);
  }
}
