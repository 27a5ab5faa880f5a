/** The compiler as it runs: shared, mutable active-fragment sets and an insertion-ordered map of fields. */
module ProjectionCompiler {
  import opened Outcomes
  import opened Sequences
  import opened GraphqlTypes
  import opened ProjectionDocument
  import opened ProjectionRender
  import opened CacheOnlySearch
  import opened ProjectionPlugin

  /** A JavaScript `Set` of fragment names. */
  class FragmentSet {
    var names: set<string>

    constructor (names: set<string>)
      ensures this.names == names
    {
      this.names := names;
    }
  }

  /** Searching with one shared active set answers like the functional search, and restores the set. */
  method SelectionSetHasCacheOnly(selections: seq<Selection>, fragments: FragmentMap, active: FragmentSet)
    returns (r: Search)
    modifies active
    ensures r == HasCacheOnly(selections, fragments, old(active.names))
    ensures r.Ok? ==> active.names == old(active.names)
    decreases |Inactive(fragments, active.names)|, Size(selections)
  {
    ghost var names := active.names;
    for i := 0 to |selections|
      invariant active.names == names
      invariant HasCacheOnly(selections, fragments, names) == HasCacheOnly(selections[i..], fragments, names)
      invariant Size(selections[i..]) <= Size(selections)
    {
      assert selections[i..][0] == selections[i] && selections[i..][1..] == selections[i + 1..];
      var found: Search := Ok(false);
      match selections[i] {
        case Field(field) =>
          if IsCacheOnly(field) {
            found := Ok(true);
          } else if field.selectionSet.Present? {
            found := SelectionSetHasCacheOnly(field.selectionSet.selections, fragments, active);
          }
        case InlineFragment(_, sub) =>
          found := SelectionSetHasCacheOnly(sub, fragments, active);
        case FragmentSpread(name) =>
          if name !in fragments {
            return Err(name);
          }
          if name !in active.names {
            EnteringShrinksInactive(fragments, active.names, name);
            active.names := active.names + {name};
            found := SelectionSetHasCacheOnly(fragments[name].selectionSet, fragments, active);
            active.names := active.names - {name};
          }
      }
      if found.Err? || found.value {
        return found;
      }
    }
    return Ok(false);
  }

  function GroupsOf(contexts: seq<FieldContext>): map<string, seq<FieldContext>> {
    if contexts == [] then map[]
    else
      var last := contexts[|contexts| - 1];
      var before := GroupsOf(contexts[..|contexts| - 1]);
      var key := ResponseKey(last.field);
      before[key := (if key in before then before[key] else []) + [last]]
  }

  lemma {:induction false} GroupsOfMembers(contexts: seq<FieldContext>, key: string)
    ensures key in KeysOf(contexts) <==> key in GroupsOf(contexts)
    ensures WithKey(contexts, key) == if key in GroupsOf(contexts) then GroupsOf(contexts)[key] else []
  {
    if contexts != [] {
      GroupsOfMembers(contexts[..|contexts| - 1], key);
    }
  }

  /** `fieldsByResponseKey`: keys in insertion order, each with its fields. */
  class FieldsByResponseKey {
    var keys: seq<string>
    var groups: map<string, seq<FieldContext>>
    ghost var pushed: seq<FieldContext>

    /** The map is the one built by pushing `pushed` in order. */
    ghost predicate Valid()
      reads this
    {
      keys == KeysOf(pushed) && groups == GroupsOf(pushed)
    }

    constructor ()
      ensures Valid() && pushed == []
    {
      keys, groups, pushed := [], map[], [];
    }

    method Push(c: FieldContext)
      requires Valid()
      modifies this
      ensures Valid() && pushed == old(pushed) + [c]
    {
      var key := ResponseKey(c.field);
      GroupsOfMembers(pushed, key);
      var fields := if key in groups then groups[key] else [];
      if key !in groups {
        keys := keys + [key];
      }
      groups := groups[key := fields + [c]];
      pushed := pushed + [c];
      assert pushed[..|pushed| - 1] == old(pushed);
    }
  }

  ghost function Prepend(sofar: seq<FieldContext>, rest: Rendered<seq<FieldContext>>): Rendered<seq<FieldContext>> {
    match rest
    case Err(e) => Err(e)
    case Ok(collected) => Ok(sofar + collected)
  }

  lemma PrependNothing(rest: Rendered<seq<FieldContext>>)
    ensures Prepend([], rest) == rest
  {
    if rest.Ok? {
      assert [] + rest.value == rest.value;
    }
  }

  lemma PrependToNothing(sofar: seq<FieldContext>)
    ensures Prepend(sofar, Ok([])) == Ok(sofar)
  {
    assert sofar + [] == sofar;
  }

  lemma PrependTwice(sofar: seq<FieldContext>, first: seq<FieldContext>, rest: Rendered<seq<FieldContext>>)
    ensures Prepend(sofar, Prepend(first, rest)) == Prepend(sofar + first, rest)
  {
    if rest.Ok? {
      assert sofar + (first + rest.value) == sofar + first + rest.value;
    }
  }

  /** Pushes what `selections` contribute; `collected` is what was pushed. */
  method RenderSelections(schema: Schema, fragments: FragmentMap, concrete: string, scope: string,
                          selections: seq<Selection>, active: FragmentSet, fields: FieldsByResponseKey)
    returns (r: Rendered<()>, ghost collected: seq<FieldContext>)
    requires fields.Valid()
    modifies active, fields
    ensures r.Err? ==> CollectFields(schema, fragments, concrete, scope, selections, old(active.names)) == Err(r.error)
    ensures r.Ok? ==> CollectFields(schema, fragments, concrete, scope, selections, old(active.names)) == Ok(collected)
    ensures r.Ok? ==> fields.Valid() && fields.pushed == old(fields.pushed) + collected
    ensures r.Ok? ==> active.names == old(active.names)
    decreases |Inactive(fragments, active.names)|, Size(selections), 1
  {
    ghost var names, before := active.names, fields.pushed;
    ghost var all := CollectFields(schema, fragments, concrete, scope, selections, names);
    collected := [];
    assert before + collected == before;
    PrependNothing(all);
    CollectEnd(schema, fragments, concrete, scope, selections, names);
    assert selections[0..] == selections;
    for i := 0 to |selections|
      invariant active.names == names
      invariant fields.Valid() && fields.pushed == before + collected
      invariant all == Prepend(collected, CollectFields(schema, fragments, concrete, scope, selections[i..], names))
    {
      MemberSize(selections, i);
      CollectStep(schema, fragments, concrete, scope, selections, names, collected, i);
      ghost var first;
      r, first := RenderSelection(schema, fragments, concrete, scope, selections[i], active, fields);
      if r.Err? {
        return;
      }
      AppendIsAssociative(before, collected, first);
      collected := collected + first;
    }
    PrependToNothing(collected);
    r := Ok(());
  }

  lemma CollectEnd(schema: Schema, fragments: FragmentMap, concrete: string, scope: string,
                   selections: seq<Selection>, names: set<string>)
    ensures CollectFields(schema, fragments, concrete, scope, selections[|selections|..], names) == Ok([])
  {
  }

  /** One more selection collected. */
  lemma CollectStep(schema: Schema, fragments: FragmentMap, concrete: string, scope: string,
                    selections: seq<Selection>, names: set<string>, sofar: seq<FieldContext>, i: nat)
    requires i < |selections|
    ensures var rest := CollectFields(schema, fragments, concrete, scope, selections[i + 1..], names);
            Prepend(sofar, CollectFields(schema, fragments, concrete, scope, selections[i..], names))
            == match CollectSelection(schema, fragments, concrete, scope, selections[i], names)
               case Err(e) => Err(e)
               case Ok(first) => Prepend(sofar + first, rest)
  {
    assert selections[i..][0] == selections[i] && selections[i..][1..] == selections[i + 1..];
    var head := CollectSelection(schema, fragments, concrete, scope, selections[i], names);
    if head.Ok? {
      PrependTwice(sofar, head.value, CollectFields(schema, fragments, concrete, scope, selections[i + 1..], names));
    }
  }

  method RenderSelection(schema: Schema, fragments: FragmentMap, concrete: string, scope: string,
                         selection: Selection, active: FragmentSet, fields: FieldsByResponseKey)
    returns (r: Rendered<()>, ghost collected: seq<FieldContext>)
    requires fields.Valid()
    modifies active, fields
    ensures r.Err? ==>
              CollectSelection(schema, fragments, concrete, scope, selection, old(active.names)) == Err(r.error)
    ensures r.Ok? ==>
              CollectSelection(schema, fragments, concrete, scope, selection, old(active.names)) == Ok(collected)
    ensures r.Ok? ==> fields.Valid() && fields.pushed == old(fields.pushed) + collected
    ensures r.Ok? ==> active.names == old(active.names)
    decreases |Inactive(fragments, active.names)|, SelectionSize(selection), 0
  {
    collected := [];
    match selection {
      case Field(field) =>
        if !IsCacheOnly(field) {
          fields.Push(FieldContext(field, scope, active.names));
          collected := [FieldContext(field, scope, active.names)];
        }
        r := Ok(());
      case FragmentSpread(name) =>
        if name !in fragments {
          return Err(UnknownFragment(name)), [];
        }
        if name in active.names {
          return Ok(()), [];
        }
        var condition := fragments[name].typeCondition;
        if !IsComposite(schema, condition) {
          return Err(NotComposite(condition)), [];
        }
        if !TypeConditionApplies(schema, condition, concrete) {
          return Ok(()), [];
        }
        EnteringShrinksInactive(fragments, active.names, name);
        active.names := active.names + {name};
        r, collected := RenderSelections(schema, fragments, concrete, condition,
                                         fragments[name].selectionSet, active, fields);
        if r.Err? {
          return;
        }
        active.names := active.names - {name};
        assert active.names == old(active.names);
      case InlineFragment(typeCondition, sub) =>
        if typeCondition.Some? && !IsComposite(schema, typeCondition.value) {
          return Err(NotComposite(typeCondition.value)), [];
        }
        var condition := if typeCondition.Some? then typeCondition.value else scope;
        if !TypeConditionApplies(schema, condition, concrete) {
          return Ok(()), [];
        }
        r, collected := RenderSelections(schema, fragments, concrete, condition, sub, active, fields);
    }
  }

  /** A selection set with the active set object it shares. */
  datatype LiveContext = LiveContext(selectionSet: seq<Selection>, active: FragmentSet)

  function Snapshot(contexts: seq<LiveContext>): (snapshot: seq<SelectionSetContext>)
    reads set c | c in contexts :: c.active
    ensures |snapshot| == |contexts|
    ensures forall i :: 0 <= i < |contexts| ==>
              snapshot[i] == SelectionSetContext(contexts[i].selectionSet, contexts[i].active.names)
  {
    if contexts == [] then []
    else [SelectionSetContext(contexts[0].selectionSet, contexts[0].active.names)] + Snapshot(contexts[1..])
  }

  method CollectAll(schema: Schema, fragments: FragmentMap, parent: string, concrete: string,
      contexts: seq<LiveContext>)
    returns (r: Rendered<()>, fields: FieldsByResponseKey)
    modifies set c | c in contexts :: c.active
    ensures fresh(fields)
    ensures r.Err? ==> CollectContexts(schema, fragments, concrete, parent, old(Snapshot(contexts))) == Err(r.error)
    ensures r.Ok? ==> fields.Valid()
    ensures r.Ok? ==> CollectContexts(schema, fragments, concrete, parent, old(Snapshot(contexts))) == Ok(fields.pushed)
    ensures r.Ok? ==> forall c :: c in contexts ==> c.active.names == old(c.active.names)
  {
    fields := new FieldsByResponseKey();
    ghost var snapshot := Snapshot(contexts);
    ghost var all := CollectContexts(schema, fragments, concrete, parent, snapshot);
    PrependNothing(all);
    assert snapshot[0..] == snapshot && contexts[0..] == contexts;
    for i := 0 to |contexts|
      invariant fields.Valid()
      invariant forall c :: c in contexts ==> c.active.names == old(c.active.names)
      invariant all == Prepend(fields.pushed, CollectContexts(schema, fragments, concrete, parent, snapshot[i..]))
    {
      var c := contexts[i];
      assert snapshot[i] == SelectionSetContext(c.selectionSet, c.active.names);
      CollectContextsStep(schema, fragments, concrete, parent, snapshot, fields.pushed, i);
      ghost var first;
      r, first := RenderSelections(schema, fragments, concrete, parent, c.selectionSet, c.active, fields);
      if r.Err? {
        return;
      }
    }
    assert snapshot[|contexts|..] == [];
    PrependToNothing(fields.pushed);
    r := Ok(());
  }

  /** One more context collected. */
  lemma CollectContextsStep(schema: Schema, fragments: FragmentMap, concrete: string, parent: string,
                            contexts: seq<SelectionSetContext>, sofar: seq<FieldContext>, i: nat)
    requires i < |contexts|
    ensures var rest := CollectContexts(schema, fragments, concrete, parent, contexts[i + 1..]);
            Prepend(sofar, CollectContexts(schema, fragments, concrete, parent, contexts[i..]))
            == match CollectFields(schema, fragments, concrete, parent, contexts[i].selectionSet, contexts[i].active)
               case Err(e) => Err(e)
               case Ok(first) => Prepend(sofar + first, rest)
  {
    assert contexts[i..][0] == contexts[i] && contexts[i..][1..] == contexts[i + 1..];
    var head := CollectFields(schema, fragments, concrete, parent, contexts[i].selectionSet, contexts[i].active);
    if head.Ok? {
      PrependTwice(sofar, head.value, CollectContexts(schema, fragments, concrete, parent, contexts[i + 1..]));
    }
  }

  /** The nested selection sets of a group, each with its own copy of the fragments active at its field. */
  method NestedSelectionSets(group: seq<FieldContext>) returns (nested: seq<LiveContext>)
    ensures Snapshot(nested) == NestedContexts(group)
    ensures forall c :: c in nested ==> fresh(c.active)
  {
    nested := [];
    var i := |group|;
    while i > 0
      invariant 0 <= i <= |group|
      invariant Snapshot(nested) == NestedContexts(group[i..])
      invariant forall c :: c in nested ==> fresh(c.active)
    {
      i := i - 1;
      assert group[i..][1..] == group[i + 1..];
      if group[i].field.selectionSet.Present? {
        ghost var rest, before := nested, Snapshot(nested);
        var active := new FragmentSet(group[i].active);
        assert Snapshot(rest) == before;
        nested := [LiveContext(group[i].field.selectionSet.selections, active)] + nested;
        assert nested[1..] == rest;
      }
    }
  }

  method RenderGroup(schema: Schema, fragments: FragmentMap, concrete: string, group: seq<FieldContext>)
    returns (r: Rendered<Option<Ts>>)
    ensures r == RenderProperty(schema, fragments, concrete, group)
    decreases MaxFieldRank(fragments, group), 0, 0
  {
    if group == [] {
      return Ok(None);
    }
    var first := group[0];
    if first.field.name == "__typename" {
      return Ok(Some(Literal(concrete)));
    }
    if !HasFields(schema, first.scope) {
      return Err(FieldsBeneathUnion(first.scope));
    }
    if first.field.name !in FieldsOf(schema, first.scope) {
      return Err(UnknownField(first.scope, first.field.name));
    }
    var fieldType := FieldsOf(schema, first.scope)[first.field.name];
    var named := NamedTypeOf(fieldType);
    if IsComposite(schema, named) {
      var nested := NestedSelectionSets(group);
      if nested == [] {
        return Ok(None);
      }
      NestedContextsAreSmaller(fragments, group);
      var rendered := RenderAll(schema, fragments, named, nested);
      return WrapRendered(fieldType, rendered);
    }
    match LeafType(schema, named) {
      case Err(e) => return Err(e);
      case Ok(leaf) => return Ok(Some(WrapType(fieldType, leaf)));
    }
  }

  /** Rendering one concrete type leaves every shared active set as it found it. */
  method RenderObject(schema: Schema, fragments: FragmentMap, parent: string, concrete: string,
      contexts: seq<LiveContext>)
    returns (r: Rendered<Option<Ts>>)
    modifies set c | c in contexts :: c.active
    ensures r == RenderSelectionSetForObject(schema, fragments, parent, concrete, old(Snapshot(contexts)))
    ensures r.Ok? ==> Snapshot(contexts) == old(Snapshot(contexts))
    decreases MaxRank(fragments, Snapshot(contexts)), 2, 0
  {
    ghost var snapshot := Snapshot(contexts);
    var collected, fields := CollectAll(schema, fragments, parent, concrete, contexts);
    if collected.Err? {
      return Err(collected.error);
    }
    assert Snapshot(contexts) == snapshot;
    CollectedContextsBelow(schema, fragments, concrete, parent, snapshot);
    var properties := RenderGroups(schema, fragments, concrete, fields);
    ObjectFromProperties(schema, fragments, parent, concrete, snapshot, fields.pushed);
    if properties.Err? {
      return Err(properties.error);
    }
    return Ok(if properties.value == [] then None else Some(Record(properties.value)));
  }

  lemma ObjectFromProperties(schema: Schema, fragments: FragmentMap, parent: string, concrete: string,
                             contexts: seq<SelectionSetContext>, collected: seq<FieldContext>)
    requires CollectContexts(schema, fragments, concrete, parent, contexts) == Ok(collected)
    ensures RenderSelectionSetForObject(schema, fragments, parent, concrete, contexts)
            == match RenderProperties(schema, fragments, concrete, collected, KeysOf(collected))
               case Err(e) => Err(e)
               case Ok(properties) => Ok(if properties == [] then None else Some(Record(properties)))
  {
  }

  method RenderGroups(schema: Schema, fragments: FragmentMap, concrete: string, fields: FieldsByResponseKey)
    returns (r: Rendered<seq<Property>>)
    requires fields.Valid()
    ensures r == RenderProperties(schema, fragments, concrete, fields.pushed, KeysOf(fields.pushed))
    decreases MaxFieldRank(fragments, fields.pushed), 1, 0
  {
    ghost var all := fields.pushed;
    var properties: seq<Property> := [];
    for i := 0 to |fields.keys|
      invariant RenderProperties(schema, fragments, concrete, all, fields.keys[..i]) == Ok(properties)
    {
      var key := fields.keys[i];
      GroupsOfMembers(all, key);
      PropertiesStep(schema, fragments, concrete, all, fields.keys, i);
      GroupIsNoLarger(fragments, all, key);
      var rendered := RenderGroup(schema, fragments, concrete, fields.groups[key]);
      if rendered.Err? {
        ErrorStops(schema, fragments, concrete, all, fields.keys, i);
        return Err(rendered.error);
      }
      if rendered.value.Some? {
        properties := properties + [Property(key, rendered.value.value)];
      }
      assert RenderProperties(schema, fragments, concrete, all, fields.keys[..i + 1]) == Ok(properties);
    }
    assert fields.keys[..|fields.keys|] == fields.keys;
    return Ok(properties);
  }

  lemma PropertiesStep(schema: Schema, fragments: FragmentMap, concrete: string,
                       contexts: seq<FieldContext>, keys: seq<string>, i: nat)
    requires i < |keys|
    requires RenderProperties(schema, fragments, concrete, contexts, keys[..i]).Ok?
    ensures var before := RenderProperties(schema, fragments, concrete, contexts, keys[..i]).value;
            RenderProperties(schema, fragments, concrete, contexts, keys[..i + 1])
            == match RenderProperty(schema, fragments, concrete, WithKey(contexts, keys[i]))
               case Err(e) => Err(e)
               case Ok(None) => Ok(before)
               case Ok(Some(type_)) => Ok(before + [Property(keys[i], type_)])
  {
    assert keys[..i + 1][..i] == keys[..i];
  }

  lemma ProjectionsStep(schema: Schema, fragments: FragmentMap, parent: string,
                        concretes: seq<string>, contexts: seq<SelectionSetContext>, i: nat)
    requires i < |concretes|
    requires RenderProjections(schema, fragments, parent, concretes[..i], contexts).Ok?
    ensures var before := RenderProjections(schema, fragments, parent, concretes[..i], contexts).value;
            RenderProjections(schema, fragments, parent, concretes[..i + 1], contexts)
            == match RenderSelectionSetForObject(schema, fragments, parent, concretes[i], contexts)
               case Err(e) => Err(e)
               case Ok(projection) => Ok(before + [projection])
  {
    assert concretes[..i + 1][..i] == concretes[..i];
  }

  /** The first error decides. */
  lemma {:induction false} ErrorStops(schema: Schema, fragments: FragmentMap, concrete: string,
                                      contexts: seq<FieldContext>, keys: seq<string>, i: nat)
    requires i < |keys|
    requires RenderProperties(schema, fragments, concrete, contexts, keys[..i]).Ok?
    requires RenderProperty(schema, fragments, concrete, WithKey(contexts, keys[i])).Err?
    ensures RenderProperties(schema, fragments, concrete, contexts, keys)
            == Err(RenderProperty(schema, fragments, concrete, WithKey(contexts, keys[i])).error)
    decreases |keys|
  {
    if i < |keys| - 1 {
      var before := keys[..|keys| - 1];
      assert before[..i] == keys[..i];
      ErrorStops(schema, fragments, concrete, contexts, before, i);
    }
  }

  lemma {:induction false} ProjectionErrorStops(schema: Schema, fragments: FragmentMap, parent: string,
                                                concretes: seq<string>, contexts: seq<SelectionSetContext>, i: nat)
    requires i < |concretes|
    requires RenderProjections(schema, fragments, parent, concretes[..i], contexts).Ok?
    requires RenderSelectionSetForObject(schema, fragments, parent, concretes[i], contexts).Err?
    ensures RenderProjections(schema, fragments, parent, concretes, contexts)
            == Err(RenderSelectionSetForObject(schema, fragments, parent, concretes[i], contexts).error)
    decreases |concretes|
  {
    if i < |concretes| - 1 {
      var before := concretes[..|concretes| - 1];
      assert before[..i] == concretes[..i];
      ProjectionErrorStops(schema, fragments, parent, before, contexts, i);
    }
  }

  /** All concrete types are rendered over the same shared contexts, yet each as if it were alone. */
  method RenderAll(schema: Schema, fragments: FragmentMap, parent: string, contexts: seq<LiveContext>)
    returns (r: Rendered<Option<Ts>>)
    modifies set c | c in contexts :: c.active
    ensures r == RenderSelectionSet(schema, fragments, parent, old(Snapshot(contexts)))
    ensures r.Ok? ==> Snapshot(contexts) == old(Snapshot(contexts))
    decreases MaxRank(fragments, Snapshot(contexts)), 4, 0
  {
    ghost var snapshot := Snapshot(contexts);
    var concretes := PossibleObjectTypes(schema, parent);
    var projections: seq<Option<Ts>> := [];
    for i := 0 to |concretes|
      invariant Snapshot(contexts) == snapshot
      invariant RenderProjections(schema, fragments, parent, concretes[..i], snapshot) == Ok(projections)
    {
      ProjectionsStep(schema, fragments, parent, concretes, snapshot, i);
      var projection := RenderObject(schema, fragments, parent, concretes[i], contexts);
      if projection.Err? {
        ProjectionErrorStops(schema, fragments, parent, concretes, snapshot, i);
        return Err(projection.error);
      }
      projections := projections + [projection.value];
    }
    assert concretes[..|concretes|] == concretes;
    return Ok(JoinProjections(projections));
  }

  lemma {:induction false} EmitErrorStops(schema: Schema, fragments: FragmentMap, definitions: seq<Definition>, i: nat)
    requires i < |definitions|
    requires EmitAll(schema, fragments, definitions[..i]).Ok?
    requires EmitDefinition(schema, fragments, definitions[i]).Err?
    ensures EmitAll(schema, fragments, definitions) == Err(EmitDefinition(schema, fragments, definitions[i]).error)
    decreases |definitions|
  {
    if i < |definitions| - 1 {
      var before := definitions[..|definitions| - 1];
      assert before[..i] == definitions[..i];
      EmitErrorStops(schema, fragments, before, i);
    }
  }

  method Emit(schema: Schema, fragments: FragmentMap, definition: Definition) returns (r: Rendered<seq<Emitted>>)
    ensures r == EmitDefinition(schema, fragments, definition)
  {
    if definition.FragmentDefinition? || definition.name.None? {
      return Ok([]);
    }
    var searched := new FragmentSet({});
    var found := SelectionSetHasCacheOnly(definition.selectionSet, fragments, searched);
    if found.Err? {
      return Err(UnknownFragment(found.error));
    }
    if !found.value {
      return Ok([]);
    }
    match OperationRoot(schema, definition.kind) {
      case Err(e) => return Err(e);
      case Ok(root) =>
        var active := new FragmentSet({});
        var contexts := [LiveContext(definition.selectionSet, active)];
        assert contexts[1..] == [];
        assert Snapshot(contexts) == [SelectionSetContext(definition.selectionSet, {})];
        var projection := RenderAll(schema, fragments, root, contexts);
        if projection.Err? {
          return Err(projection.error);
        }
        return Ok([Emitted(definition.name.value, projection.value)]);
    }
  }

  method Plugin(schema: Schema, definitions: seq<Definition>) returns (r: Rendered<seq<Emitted>>)
    ensures r == EmitAll(schema, FragmentsOf(definitions), definitions)
  {
    var fragments := FragmentsOf(definitions);
    var output: seq<Emitted> := [];
    for i := 0 to |definitions|
      invariant EmitAll(schema, fragments, definitions[..i]) == Ok(output)
    {
      assert definitions[..i + 1][..i] == definitions[..i];
      var emitted := Emit(schema, fragments, definitions[i]);
      if emitted.Err? {
        EmitErrorStops(schema, fragments, definitions, i);
        return Err(emitted.error);
      }
      output := output + emitted.value;
    }
    assert definitions[..|definitions|] == definitions;
    return Ok(output);
  }
}
