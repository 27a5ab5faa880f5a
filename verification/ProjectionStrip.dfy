/** Removing every `@cacheOnly` field from a document, and what that leaves unchanged. */
module ProjectionStrip {
  import opened Outcomes
  import opened GraphqlTypes
  import opened ProjectionDocument
  import opened ProjectionRender
  import opened ResponseSemantics
  import opened FieldReachability
  import opened CacheOnlySearch

  predicate Dropped(selection: Selection) {
    selection.Field? && IsCacheOnly(selection.field)
  }

  function Strip(selections: seq<Selection>): seq<Selection> {
    if selections == [] then []
    else if Dropped(selections[0]) then Strip(selections[1..])
    else [StripHead(selections[0])] + Strip(selections[1..])
  }

  function StripHead(selection: Selection): Selection {
    match selection
    case Field(field) => Field(StripField(field))
    case FragmentSpread(_) => selection
    case InlineFragment(typeCondition, sub) => InlineFragment(typeCondition, Strip(sub))
  }

  function StripField(field: FieldNode): FieldNode {
    match field.selectionSet
    case Absent => field
    case Present(sub) => field.(selectionSet := Present(Strip(sub)))
  }

  function StripFragments(fragments: FragmentMap): FragmentMap {
    map n | n in fragments :: fragments[n].(selectionSet := Strip(fragments[n].selectionSet))
  }

  function StripContexts(contexts: seq<SelectionSetContext>): seq<SelectionSetContext> {
    if contexts == [] then []
    else [contexts[0].(selectionSet := Strip(contexts[0].selectionSet))] + StripContexts(contexts[1..])
  }

  function StripFieldContext(c: FieldContext): FieldContext {
    c.(field := StripField(c.field))
  }

  function StripFieldContexts(contexts: seq<FieldContext>): (stripped: seq<FieldContext>)
    ensures |stripped| == |contexts|
    ensures forall i :: 0 <= i < |contexts| ==> stripped[i] == StripFieldContext(contexts[i])
  {
    if contexts == [] then []
    else StripFieldContexts(contexts[..|contexts| - 1]) + [StripFieldContext(contexts[|contexts| - 1])]
  }

  function StripCollected(r: Rendered<seq<FieldContext>>): Rendered<seq<FieldContext>> {
    match r
    case Ok(contexts) => Ok(StripFieldContexts(contexts))
    case Err(e) => Err(e)
  }

  // ----- rendering is unchanged -----

  lemma StripAppend(a: seq<FieldContext>, b: seq<FieldContext>)
    ensures StripFieldContexts(a + b) == StripFieldContexts(a) + StripFieldContexts(b)
  {
  }

  lemma {:induction false} CollectStripped(schema: Schema, fragments: FragmentMap, concrete: string,
                                           scope: string, selections: seq<Selection>, active: set<string>)
    ensures CollectFields(schema, StripFragments(fragments), concrete, scope, Strip(selections), active)
            == StripCollected(CollectFields(schema, fragments, concrete, scope, selections, active))
    decreases |Inactive(fragments, active)|, Size(selections), 1
  {
    if selections != [] {
      var head, rest := selections[0], selections[1..];
      CollectStripped(schema, fragments, concrete, scope, rest, active);
      var first := CollectSelection(schema, fragments, concrete, scope, head, active);
      var others := CollectFields(schema, fragments, concrete, scope, rest, active);
      if first.Ok? && others.Ok? {
        StripAppend(first.value, others.value);
      }
      if Dropped(head) {
        assert first == Ok([]);
        assert others.Ok? ==> [] + others.value == others.value;
      } else {
        CollectHeadStripped(schema, fragments, concrete, scope, head, active);
        assert Strip(selections) == [StripHead(head)] + Strip(rest);
        assert Strip(selections)[1..] == Strip(rest);
      }
    }
  }

  lemma {:induction false} CollectHeadStripped(schema: Schema, fragments: FragmentMap, concrete: string,
                                               scope: string, selection: Selection, active: set<string>)
    requires !Dropped(selection)
    ensures CollectSelection(schema, StripFragments(fragments), concrete, scope, StripHead(selection), active)
            == StripCollected(CollectSelection(schema, fragments, concrete, scope, selection, active))
    decreases |Inactive(fragments, active)|, SelectionSize(selection), 0
  {
    match selection
    case Field(field) =>
      assert !IsCacheOnly(StripField(field));
      var c := FieldContext(field, scope, active);
      assert StripFieldContexts([c]) == [StripFieldContext(c)];
    case FragmentSpread(name) =>
      CollectSpreadStripped(schema, fragments, concrete, scope, name, active);
    case InlineFragment(typeCondition, sub) =>
      var condition := if typeCondition.Some? then typeCondition.value else scope;
      CollectStripped(schema, fragments, concrete, condition, sub, active);
  }

  lemma {:induction false} CollectSpreadStripped(schema: Schema, fragments: FragmentMap, concrete: string,
                                                 scope: string, name: string, active: set<string>)
    ensures CollectSelection(schema, StripFragments(fragments), concrete, scope, FragmentSpread(name), active)
            == StripCollected(CollectSelection(schema, fragments, concrete, scope, FragmentSpread(name), active))
    decreases |Inactive(fragments, active)|, 0, 0
  {
    var stripped := StripFragments(fragments);
    if name in fragments && name !in active {
      var condition, body := fragments[name].typeCondition, fragments[name].selectionSet;
      assert stripped[name] == Fragment(condition, Strip(body));
      EnteringShrinksInactive(fragments, active, name);
      EnteringShrinksInactive(stripped, active, name);
      CollectStripped(schema, fragments, concrete, condition, body, active + {name});
    }
  }

  lemma {:induction false} CollectContextsStripped(schema: Schema, fragments: FragmentMap, concrete: string,
                                                   parent: string, contexts: seq<SelectionSetContext>)
    ensures CollectContexts(schema, StripFragments(fragments), concrete, parent, StripContexts(contexts))
            == StripCollected(CollectContexts(schema, fragments, concrete, parent, contexts))
  {
    if contexts != [] {
      var head, rest := contexts[0], contexts[1..];
      CollectStripped(schema, fragments, concrete, parent, head.selectionSet, head.active);
      CollectContextsStripped(schema, fragments, concrete, parent, rest);
      assert StripContexts(contexts)[1..] == StripContexts(rest);
      var first := CollectFields(schema, fragments, concrete, parent, head.selectionSet, head.active);
      var others := CollectContexts(schema, fragments, concrete, parent, rest);
      if first.Ok? && others.Ok? {
        StripAppend(first.value, others.value);
      }
    }
  }

  lemma {:induction false} KeysStripped(contexts: seq<FieldContext>)
    ensures KeysOf(StripFieldContexts(contexts)) == KeysOf(contexts)
  {
    if contexts != [] {
      var n := |contexts| - 1;
      KeysStripped(contexts[..n]);
      assert StripFieldContexts(contexts)[..n] == StripFieldContexts(contexts[..n]);
    }
  }

  lemma {:induction false} GroupStripped(contexts: seq<FieldContext>, key: string)
    ensures WithKey(StripFieldContexts(contexts), key) == StripFieldContexts(WithKey(contexts, key))
  {
    if contexts != [] {
      var n := |contexts| - 1;
      GroupStripped(contexts[..n], key);
      assert StripFieldContexts(contexts)[..n] == StripFieldContexts(contexts[..n]);
      StripAppend(WithKey(contexts[..n], key), [contexts[n]]);
    }
  }

  lemma {:induction false} NestedStripped(group: seq<FieldContext>)
    ensures NestedContexts(StripFieldContexts(group)) == StripContexts(NestedContexts(group))
  {
    if group != [] {
      NestedStripped(group[1..]);
      assert StripFieldContexts(group)[1..] == StripFieldContexts(group[1..]);
    }
  }

  lemma {:induction false} PropertyStripped(schema: Schema, fragments: FragmentMap, concrete: string,
      group: seq<FieldContext>)
    ensures RenderProperty(schema, StripFragments(fragments), concrete, StripFieldContexts(group))
            == RenderProperty(schema, fragments, concrete, group)
    decreases MaxFieldRank(fragments, group), 0, 0
  {
    NestedStripped(group);
    if HasNested(schema, group) {
      var named := NestedTypeName(schema, group);
      NestedContextsAreSmaller(fragments, group);
      RenderStripped(schema, fragments, named, NestedContexts(group));
    }
    PropertyDependsOn(schema, fragments, StripFragments(fragments), concrete, group, StripFieldContexts(group));
  }

  /** The property has a composite type and something is selected beneath it. */
  predicate HasNested(schema: Schema, group: seq<FieldContext>) {
    && group != [] && NestedContexts(group) != []
    && HasFields(schema, group[0].scope) && group[0].field.name in FieldsOf(schema, group[0].scope)
    && IsComposite(schema, NestedTypeName(schema, group))
  }

  function NestedTypeName(schema: Schema, group: seq<FieldContext>): string
    requires group != []
    requires HasFields(schema, group[0].scope) && group[0].field.name in FieldsOf(schema, group[0].scope)
  {
    NamedTypeOf(FieldsOf(schema, group[0].scope)[group[0].field.name])
  }

  /** A property's type is fixed by its first field and by what its nested contexts render to. */
  lemma PropertyDependsOn(schema: Schema, fragments: FragmentMap, others: FragmentMap, concrete: string,
                          group: seq<FieldContext>, other: seq<FieldContext>)
    requires |group| == |other|
    requires group != [] ==> group[0].field.name == other[0].field.name && group[0].scope == other[0].scope
    requires NestedContexts(group) == [] <==> NestedContexts(other) == []
    requires HasNested(schema, group) ==>
               RenderSelectionSet(schema, others, NestedTypeName(schema, group), NestedContexts(other))
               == RenderSelectionSet(schema, fragments, NestedTypeName(schema, group), NestedContexts(group))
    ensures RenderProperty(schema, others, concrete, other) == RenderProperty(schema, fragments, concrete, group)
  {
  }

  lemma {:induction false} PropertiesStripped(schema: Schema, fragments: FragmentMap, concrete: string,
                                              contexts: seq<FieldContext>, keys: seq<string>)
    ensures RenderProperties(schema, StripFragments(fragments), concrete, StripFieldContexts(contexts), keys)
            == RenderProperties(schema, fragments, concrete, contexts, keys)
    decreases MaxFieldRank(fragments, contexts), 1, |keys|
  {
    if keys != [] {
      var last := |keys| - 1;
      PropertiesStripped(schema, fragments, concrete, contexts, keys[..last]);
      GroupIsNoLarger(fragments, contexts, keys[last]);
      GroupStripped(contexts, keys[last]);
      PropertyStripped(schema, fragments, concrete, WithKey(contexts, keys[last]));
    }
  }

  lemma {:induction false} ObjectStripped(schema: Schema, fragments: FragmentMap, parent: string,
                                          concrete: string, contexts: seq<SelectionSetContext>)
    ensures RenderSelectionSetForObject(schema, StripFragments(fragments), parent, concrete, StripContexts(contexts))
            == RenderSelectionSetForObject(schema, fragments, parent, concrete, contexts)
    decreases MaxRank(fragments, contexts), 2, 0
  {
    CollectContextsStripped(schema, fragments, concrete, parent, contexts);
    match CollectContexts(schema, fragments, concrete, parent, contexts)
    case Err(_) =>
    case Ok(collected) =>
      CollectedContextsBelow(schema, fragments, concrete, parent, contexts);
      KeysStripped(collected);
      PropertiesStripped(schema, fragments, concrete, collected, KeysOf(collected));
      ObjectDependsOn(schema, fragments, StripFragments(fragments), parent, concrete, contexts, StripContexts(contexts),
                      collected, StripFieldContexts(collected));
  }

  /** An object's type is fixed by its collected fields. */
  lemma ObjectDependsOn(schema: Schema, fragments: FragmentMap, others: FragmentMap, parent: string, concrete: string,
                        contexts: seq<SelectionSetContext>, otherContexts: seq<SelectionSetContext>,
                        collected: seq<FieldContext>, otherCollected: seq<FieldContext>)
    requires CollectContexts(schema, fragments, concrete, parent, contexts) == Ok(collected)
    requires CollectContexts(schema, others, concrete, parent, otherContexts) == Ok(otherCollected)
    requires RenderProperties(schema, others, concrete, otherCollected, KeysOf(otherCollected))
             == RenderProperties(schema, fragments, concrete, collected, KeysOf(collected))
    ensures RenderSelectionSetForObject(schema, others, parent, concrete, otherContexts)
            == RenderSelectionSetForObject(schema, fragments, parent, concrete, contexts)
  {
  }

  lemma {:induction false} ProjectionsStripped(schema: Schema, fragments: FragmentMap, parent: string,
                                               concretes: seq<string>, contexts: seq<SelectionSetContext>)
    ensures RenderProjections(schema, StripFragments(fragments), parent, concretes, StripContexts(contexts))
            == RenderProjections(schema, fragments, parent, concretes, contexts)
    decreases MaxRank(fragments, contexts), 3, |concretes|
  {
    if concretes != [] {
      var last := |concretes| - 1;
      ProjectionsStripped(schema, fragments, parent, concretes[..last], contexts);
      ObjectStripped(schema, fragments, parent, concretes[last], contexts);
    }
  }

  /** The rendered type, or the error, depends on nothing marked `@cacheOnly` nor on anything beneath it. */
  lemma {:induction false} RenderStripped(schema: Schema, fragments: FragmentMap, parent: string,
                                          contexts: seq<SelectionSetContext>)
    ensures RenderSelectionSet(schema, StripFragments(fragments), parent, StripContexts(contexts))
            == RenderSelectionSet(schema, fragments, parent, contexts)
    decreases MaxRank(fragments, contexts), 4, 0
  {
    ProjectionsStripped(schema, fragments, parent, PossibleObjectTypes(schema, parent), contexts);
  }

  // ----- a stripped document stays valid -----

  lemma {:induction false} StripOrigin(selections: seq<Selection>, stripped: Selection)
    requires stripped in Strip(selections)
    ensures exists s :: s in selections && !Dropped(s) && stripped == StripHead(s)
  {
    var head := selections[0];
    if !Dropped(head) && stripped == StripHead(head) {
      assert head in selections;
    } else {
      StripOrigin(selections[1..], stripped);
    }
  }

  lemma {:induction false} StripKeeps(selections: seq<Selection>, s: Selection)
    requires s in selections && !Dropped(s)
    ensures StripHead(s) in Strip(selections)
  {
    if selections[0] != s {
      StripKeeps(selections[1..], s);
    }
  }

  lemma {:induction false} StripIsVisible(selections: seq<Selection>)
    ensures !HasDirectCacheOnly(Strip(selections))
  {
    if selections != [] {
      var head, rest := selections[0], selections[1..];
      StripIsVisible(rest);
      if !Dropped(head) {
        StripHeadIsVisible(head);
        assert Strip(selections)[1..] == Strip(rest);
      }
    }
  }

  lemma {:induction false} StripHeadIsVisible(selection: Selection)
    requires !Dropped(selection)
    ensures !HeadHasDirectCacheOnly(StripHead(selection))
  {
    match selection
    case Field(field) =>
      if field.selectionSet.Present? {
        StripIsVisible(field.selectionSet.selections);
      }
    case FragmentSpread(_) =>
    case InlineFragment(_, sub) => StripIsVisible(sub);
  }

  lemma {:induction false} StripSpreads(selections: seq<Selection>)
    ensures SpreadsIn(Strip(selections)) <= SpreadsIn(selections)
  {
    if selections != [] {
      var head, rest := selections[0], selections[1..];
      StripSpreads(rest);
      if !Dropped(head) {
        StripHeadSpreads(head);
        assert Strip(selections)[1..] == Strip(rest);
      }
    }
  }

  lemma {:induction false} StripHeadSpreads(selection: Selection)
    ensures SpreadsInHead(StripHead(selection)) <= SpreadsInHead(selection)
  {
    match selection
    case Field(field) =>
      if field.selectionSet.Present? {
        StripSpreads(field.selectionSet.selections);
      }
    case FragmentSpread(_) =>
    case InlineFragment(_, sub) => StripSpreads(sub);
  }

  lemma {:induction false} StripWalks(selections: seq<Selection>, fragments: FragmentMap, path: seq<string>)
    requires Walk(Strip(selections), StripFragments(fragments), path)
    ensures Walk(selections, fragments, path)
    decreases |path|
  {
    if path != [] {
      StripSpreads(selections);
      StripWalks(fragments[path[0]].selectionSet, fragments, path[1..]);
    }
  }

  lemma StripKeepsAcyclic(fragments: FragmentMap)
    requires NoFragmentCycles(fragments)
    ensures NoFragmentCycles(StripFragments(fragments))
  {
    var stripped := StripFragments(fragments);
    forall n, path | n in stripped && Walk(stripped[n].selectionSet, stripped, path) ensures n !in path {
      StripWalks(fragments[n].selectionSet, fragments, path);
    }
  }

  /** Fields and spreads of a stripped selection set come from the original one. */
  lemma {:induction false} FlattenStripped(schema: Schema, concrete: string, selections: seq<Selection>,
      atom: Selection)
    requires atom in Flatten(schema, concrete, Strip(selections))
    ensures exists a :: a in Flatten(schema, concrete, selections) && atom == StripHead(a)
  {
    var head, rest := selections[0], selections[1..];
    if Dropped(head) {
      FlattenStripped(schema, concrete, rest, atom);
    } else {
      assert Strip(selections) == [StripHead(head)] + Strip(rest);
      if atom in FlattenHead(schema, concrete, StripHead(head)) {
        if head.InlineFragment? {
          FlattenStripped(schema, concrete, head.selectionSet, atom);
          var a :| a in Flatten(schema, concrete, head.selectionSet) && atom == StripHead(a);
          assert a in FlattenHead(schema, concrete, head);
        } else {
          assert head in FlattenHead(schema, concrete, head);
        }
      } else {
        FlattenStripped(schema, concrete, rest, atom);
      }
    }
  }

  lemma {:induction false} ReachesStripped(schema: Schema, fragments: FragmentMap, concrete: string,
                                           selections: seq<Selection>, f: FieldNode, path: seq<string>)
    returns (original: FieldNode)
    requires Reaches(schema, StripFragments(fragments), concrete, Strip(selections), f, path)
    ensures Reaches(schema, fragments, concrete, selections, original, path) && f == StripField(original)
    decreases |path|
  {
    if path == [] {
      FlattenStripped(schema, concrete, selections, Field(f));
      var a :| a in Flatten(schema, concrete, selections) && Field(f) == StripHead(a);
      original := a.field;
    } else {
      FlattenStripped(schema, concrete, selections, FragmentSpread(path[0]));
      original := ReachesStripped(schema, fragments, concrete, fragments[path[0]].selectionSet, f, path[1..]);
    }
  }

  lemma AnsweredStripped(schema: Schema, fragments: FragmentMap, concrete: string,
                         fewer: seq<Selection>, selections: seq<Selection>, f: FieldNode)
    returns (original: FieldNode)
    requires forall s :: s in fewer ==> s in Strip(selections)
    requires f in ResponseFields(schema, StripFragments(fragments), concrete, fewer)
    ensures original in ResponseFields(schema, fragments, concrete, selections) && f == StripField(original)
  {
    var path := AnsweredIsReached(schema, StripFragments(fragments), concrete, fewer, {}, f);
    var atom := if path == [] then Field(f) else FragmentSpread(path[0]);
    FlattenMonotone(schema, concrete, fewer, Strip(selections), atom);
    original := ReachesStripped(schema, fragments, concrete, selections, f, path);
    ReachedIsAnswered(schema, fragments, concrete, selections, original, path);
  }

  lemma MergedStripped(schema: Schema, fragments: FragmentMap, concrete: string,
                       fewer: seq<Selection>, selections: seq<Selection>, key: string)
    requires forall s :: s in fewer ==> s in Strip(selections)
    ensures var fields := ResponseFields(schema, fragments, concrete, selections);
            var fewerFields := ResponseFields(schema, StripFragments(fragments), concrete, fewer);
            forall s :: s in MergedSelections(FieldsWithKey(fewerFields, key)) ==>
                          s in Strip(MergedSelections(FieldsWithKey(fields, key)))
  {
    var below := MergedSelections(FieldsWithKey(ResponseFields(schema, fragments, concrete, selections), key));
    var group := FieldsWithKey(ResponseFields(schema, StripFragments(fragments), concrete, fewer), key);
    forall s | s in MergedSelections(group) ensures s in Strip(below) {
      var f := MergedOrigin(group, s);
      var original := AnsweredStripped(schema, fragments, concrete, fewer, selections, f);
      StripOrigin(SubSelections(original), s);
      var t :| t in SubSelections(original) && !Dropped(t) && s == StripHead(t);
      MergedMember(FieldsWithKey(ResponseFields(schema, fragments, concrete, selections), key), original, t);
      StripKeeps(below, t);
    }
  }

  lemma {:induction false} StripCanMergeTo(schema: Schema, fragments: FragmentMap, concrete: string,
                                           fewer: seq<Selection>, selections: seq<Selection>, depth: nat)
    requires forall s :: s in fewer ==> s in Strip(selections)
    requires CanMergeTo(schema, fragments, concrete, selections, depth)
    ensures CanMergeTo(schema, StripFragments(fragments), concrete, fewer, depth)
    decreases depth, 0
  {
    if depth > 0 {
      var fields := ResponseFields(schema, StripFragments(fragments), concrete, fewer);
      var originals := ResponseFields(schema, fragments, concrete, selections);
      forall f, g | f in fields && g in fields && ResponseKey(f) == ResponseKey(g) ensures f.name == g.name {
        var f0 := AnsweredStripped(schema, fragments, concrete, fewer, selections, f);
        var g0 := AnsweredStripped(schema, fragments, concrete, fewer, selections, g);
        assert f0 in originals && g0 in originals && ResponseKey(f0) == ResponseKey(g0);
      }
      forall f | f in fields
        ensures ChildrenCanMerge(schema, StripFragments(fragments), concrete, fields, f, depth - 1)
      {
        var f0 := AnsweredStripped(schema, fragments, concrete, fewer, selections, f);
        StripChildrenCanMerge(schema, fragments, concrete, fewer, selections, f, f0, depth - 1);
      }
    }
  }

  lemma {:induction false} StripChildrenCanMerge(schema: Schema, fragments: FragmentMap, concrete: string,
                                                 fewer: seq<Selection>, selections: seq<Selection>,
                                                 f: FieldNode, f0: FieldNode, depth: nat)
    requires forall s :: s in fewer ==> s in Strip(selections)
    requires f == StripField(f0)
    requires ChildrenCanMerge(schema, fragments, concrete,
                              ResponseFields(schema, fragments, concrete, selections), f0, depth)
    ensures ChildrenCanMerge(schema, StripFragments(fragments), concrete,
                             ResponseFields(schema, StripFragments(fragments), concrete, fewer), f, depth)
    decreases depth, 1
  {
    var key := ResponseKey(f0);
    assert f.name == f0.name && ResponseKey(f) == key;
    var below := MergedSelections(FieldsWithKey(ResponseFields(schema, fragments, concrete, selections), key));
    var fewerFields := ResponseFields(schema, StripFragments(fragments), concrete, fewer);
    var belowFewer := MergedSelections(FieldsWithKey(fewerFields, key));
    MergedStripped(schema, fragments, concrete, fewer, selections, key);
    if HasFields(schema, concrete) && f.name in FieldsOf(schema, concrete) {
      forall next | next in PossibleObjectTypes(schema, NamedTypeOf(FieldsOf(schema, concrete)[f.name]))
        ensures CanMergeTo(schema, StripFragments(fragments), next, belowFewer, depth)
      {
        StripCanMergeTo(schema, fragments, next, belowFewer, below, depth);
      }
    }
  }

  lemma StripCanMerge(schema: Schema, fragments: FragmentMap, concrete: string, selections: seq<Selection>)
    requires CanMerge(schema, fragments, concrete, selections)
    ensures CanMerge(schema, StripFragments(fragments), concrete, Strip(selections))
  {
    forall depth: nat ensures CanMergeTo(schema, StripFragments(fragments), concrete, Strip(selections), depth) {
      assert CanMergeTo(schema, fragments, concrete, selections, depth);
      StripCanMergeTo(schema, fragments, concrete, Strip(selections), selections, depth);
    }
  }
}
