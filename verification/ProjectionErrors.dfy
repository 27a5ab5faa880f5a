/** When the compiler renders a document, and which valid documents it refuses. */
module ProjectionErrors {
  import opened Outcomes
  import opened Sequences
  import opened GraphqlTypes
  import opened ProjectionDocument
  import opened ProjectionRender
  import opened ResponseSemantics
  import opened FieldReachability
  import opened ProjectionSoundness
  import opened CacheOnlySearch
  import opened ProjectionPlugin

  // ----- the exact condition -----

  /** The scope declares the field, with a type that can be answered; `__typename` needs no declaration. */
  predicate IsDeclared(schema: Schema, scope: string, name: string) {
    name == "__typename" ||
    (HasFields(schema, scope) && name in FieldsOf(schema, scope)
     && IsOutput(schema, NamedTypeOf(FieldsOf(schema, scope)[name])))
  }

  predicate IsOutput(schema: Schema, name: string) {
    name in schema.types && !schema.types[name].InputObject?
  }

  /** Selection sets rendered together for one composite type. */
  datatype Level = Level(parent: string, contexts: seq<SelectionSetContext>)

  /** From a level to the one below: the object type rendered, and the response key of a composite field. */
  datatype Move = Move(concrete: string, key: string)

  function Inner(schema: Schema, fragments: FragmentMap, level: Level, move: Move): Option<Level> {
    if move.concrete !in PossibleObjectTypes(schema, level.parent) then None
    else
      match CollectContexts(schema, fragments, move.concrete, level.parent, level.contexts)
      case Err(_) => None
      case Ok(collected) => Beneath(schema, WithKey(collected, move.key))
  }

  /** The level beneath a response key, whose first field gives the type. */
  function Beneath(schema: Schema, group: seq<FieldContext>): Option<Level> {
    if group == [] || group[0].field.name == "__typename" then None
    else if !IsDeclared(schema, group[0].scope, group[0].field.name) then None
    else
      var named := NamedTypeOf(FieldsOf(schema, group[0].scope)[group[0].field.name]);
      if IsComposite(schema, named) && NestedContexts(group) != [] then Some(Level(named, NestedContexts(group)))
      else None
  }

  function LevelAt(schema: Schema, fragments: FragmentMap, level: Level, path: seq<Move>): Option<Level>
    decreases |path|
  {
    if path == [] then Some(level)
    else
      match Inner(schema, fragments, level, path[0])
      case None => None
      case Some(inner) => LevelAt(schema, fragments, inner, path[1..])
  }

  /** For one object type: every fragment it meets is sound, and each response key's first field is declared. */
  predicate ObjectRenders(schema: Schema, fragments: FragmentMap, level: Level, concrete: string) {
    match CollectContexts(schema, fragments, concrete, level.parent, level.contexts)
    case Err(_) => false
    case Ok(collected) => LeadersDeclared(schema, collected)
  }

  predicate LeadersDeclared(schema: Schema, collected: seq<FieldContext>) {
    forall key :: key in KeysOf(collected) ==> LeaderDeclared(schema, WithKey(collected, key))
  }

  predicate LeaderDeclared(schema: Schema, group: seq<FieldContext>) {
    group != [] ==> IsDeclared(schema, group[0].scope, group[0].field.name)
  }

  ghost predicate LevelRenders(schema: Schema, fragments: FragmentMap, level: Level) {
    forall concrete :: concrete in PossibleObjectTypes(schema, level.parent) ==>
                         ObjectRenders(schema, fragments, level, concrete)
  }

  ghost predicate AllLevelsRender(schema: Schema, fragments: FragmentMap, level: Level) {
    forall path :: RendersAt(schema, fragments, level, path)
  }

  ghost predicate RendersAt(schema: Schema, fragments: FragmentMap, level: Level, path: seq<Move>) {
    var at := LevelAt(schema, fragments, level, path);
    at.Some? ==> LevelRenders(schema, fragments, at.value)
  }

  ghost predicate Renders(schema: Schema, fragments: FragmentMap, level: Level) {
    RenderSelectionSet(schema, fragments, level.parent, level.contexts).Ok?
  }

  lemma {:induction false} PropertiesOk(schema: Schema, fragments: FragmentMap, concrete: string,
                                        contexts: seq<FieldContext>, keys: seq<string>)
    ensures RenderProperties(schema, fragments, concrete, contexts, keys).Ok? <==>
            forall k :: k in keys ==> RenderProperty(schema, fragments, concrete, WithKey(contexts, k)).Ok?
  {
    if keys != [] {
      var last := |keys| - 1;
      PropertiesOk(schema, fragments, concrete, contexts, keys[..last]);
      assert forall k :: k in keys <==> k == keys[last] || k in keys[..last];
      assert RenderProperties(schema, fragments, concrete, contexts, keys).Ok? <==>
             RenderProperties(schema, fragments, concrete, contexts, keys[..last]).Ok?
             && RenderProperty(schema, fragments, concrete, WithKey(contexts, keys[last])).Ok?;
      assert keys[last] in keys;
    }
  }

  lemma {:induction false} ProjectionsOk(schema: Schema, fragments: FragmentMap, parent: string,
                                         concretes: seq<string>, contexts: seq<SelectionSetContext>)
    ensures RenderProjections(schema, fragments, parent, concretes, contexts).Ok? <==>
            forall c :: c in concretes ==> RenderSelectionSetForObject(schema, fragments, parent, c, contexts).Ok?
  {
    if concretes != [] {
      var last := |concretes| - 1;
      ProjectionsOk(schema, fragments, parent, concretes[..last], contexts);
      assert forall c :: c in concretes <==> c == concretes[last] || c in concretes[..last];
      assert concretes[last] in concretes;
    }
  }

  /** One response key: its first field is declared, and the level beneath it, if any, renders. */
  lemma PropertyOk(schema: Schema, fragments: FragmentMap, concrete: string, group: seq<FieldContext>)
    ensures RenderProperty(schema, fragments, concrete, group).Ok? <==>
            && LeaderDeclared(schema, group)
            && (Beneath(schema, group).Some? ==> Renders(schema, fragments, Beneath(schema, group).value))
  {
  }

  lemma ObjectOk(schema: Schema, fragments: FragmentMap, level: Level, concrete: string)
    requires concrete in PossibleObjectTypes(schema, level.parent)
    ensures RenderSelectionSetForObject(schema, fragments, level.parent, concrete, level.contexts).Ok? <==>
            && ObjectRenders(schema, fragments, level, concrete)
            && forall key :: InnerRenders(schema, fragments, level, Move(concrete, key))
  {
    var collection := CollectContexts(schema, fragments, concrete, level.parent, level.contexts);
    if collection.Ok? {
      var collected := collection.value;
      PropertiesOk(schema, fragments, concrete, collected, KeysOf(collected));
      forall key
        ensures RenderProperty(schema, fragments, concrete, WithKey(collected, key)).Ok? <==>
                LeaderDeclared(schema, WithKey(collected, key))
                && InnerRenders(schema, fragments, level, Move(concrete, key))
      {
        PropertyOk(schema, fragments, concrete, WithKey(collected, key));
      }
      forall key | key !in KeysOf(collected) ensures InnerRenders(schema, fragments, level, Move(concrete, key)) {
        UnknownKeyIsEmpty(collected, key);
      }
    }
  }

  lemma UnknownKeyIsEmpty(collected: seq<FieldContext>, key: string)
    requires key !in KeysOf(collected)
    ensures WithKey(collected, key) == []
  {
    WithKeyMembers(collected, key);
    KeysOfMembers(collected);
    if WithKey(collected, key) != [] {
      HasMember(WithKey(collected, key));
      assert false;
    }
  }

  ghost predicate InnerRenders(schema: Schema, fragments: FragmentMap, level: Level, move: Move) {
    var inner := Inner(schema, fragments, level, move);
    inner.Some? ==> Renders(schema, fragments, inner.value)
  }

  /** One level: it renders itself, and so does every level directly below it. */
  lemma LevelOk(schema: Schema, fragments: FragmentMap, level: Level)
    ensures Renders(schema, fragments, level) <==>
            LevelRenders(schema, fragments, level) && forall move :: InnerRenders(schema, fragments, level, move)
  {
    var concretes := PossibleObjectTypes(schema, level.parent);
    ProjectionsOk(schema, fragments, level.parent, concretes, level.contexts);
    forall c | c in concretes
      ensures RenderSelectionSetForObject(schema, fragments, level.parent, c, level.contexts).Ok? <==>
              ObjectRenders(schema, fragments, level, c)
              && forall key :: InnerRenders(schema, fragments, level, Move(c, key))
    {
      ObjectOk(schema, fragments, level, c);
    }
    if Renders(schema, fragments, level) {
      forall move ensures InnerRenders(schema, fragments, level, move) {
        assert move == Move(move.concrete, move.key);
      }
    }
  }

  lemma InnerIsSmaller(schema: Schema, fragments: FragmentMap, level: Level, move: Move)
    requires Inner(schema, fragments, level, move).Some?
    ensures MaxRank(fragments, Inner(schema, fragments, level, move).value.contexts)
            < MaxRank(fragments, level.contexts)
  {
    var collected := CollectContexts(schema, fragments, move.concrete, level.parent, level.contexts).value;
    var group := WithKey(collected, move.key);
    NestedContextsAreSmaller(fragments, group);
    GroupIsNoLarger(fragments, collected, move.key);
    CollectedContextsBelow(schema, fragments, move.concrete, level.parent, level.contexts);
  }

  lemma InnerAllRender(schema: Schema, fragments: FragmentMap, level: Level, move: Move)
    requires Inner(schema, fragments, level, move).Some? && AllLevelsRender(schema, fragments, level)
    ensures AllLevelsRender(schema, fragments, Inner(schema, fragments, level, move).value)
  {
    var inner := Inner(schema, fragments, level, move).value;
    forall path ensures RendersAt(schema, fragments, inner, path) {
      assert ([move] + path)[1..] == path;
      assert RendersAt(schema, fragments, level, [move] + path);
    }
  }

  lemma {:induction false} RenderedLevels(schema: Schema, fragments: FragmentMap, level: Level, path: seq<Move>)
    requires Renders(schema, fragments, level)
    ensures RendersAt(schema, fragments, level, path)
    decreases |path|
  {
    LevelOk(schema, fragments, level);
    if path != [] && Inner(schema, fragments, level, path[0]).Some? {
      assert InnerRenders(schema, fragments, level, path[0]);
      RenderedLevels(schema, fragments, Inner(schema, fragments, level, path[0]).value, path[1..]);
    }
  }

  lemma {:induction false} LevelsRender(schema: Schema, fragments: FragmentMap, level: Level)
    requires AllLevelsRender(schema, fragments, level)
    ensures Renders(schema, fragments, level)
    decreases MaxRank(fragments, level.contexts)
  {
    assert RendersAt(schema, fragments, level, []);
    forall move ensures InnerRenders(schema, fragments, level, move) {
      if Inner(schema, fragments, level, move).Some? {
        InnerIsSmaller(schema, fragments, level, move);
        InnerAllRender(schema, fragments, level, move);
        LevelsRender(schema, fragments, Inner(schema, fragments, level, move).value);
      }
    }
    LevelOk(schema, fragments, level);
  }

  /**
   * Rendering succeeds if and only if, at every level it reaches, fragments are sound and the first field of each
   * response key is declared by the type it is looked up on.
   */
  lemma RendersIff(schema: Schema, fragments: FragmentMap, parent: string, contexts: seq<SelectionSetContext>)
    ensures RenderSelectionSet(schema, fragments, parent, contexts).Ok? <==>
            AllLevelsRender(schema, fragments, Level(parent, contexts))
  {
    var level := Level(parent, contexts);
    if Renders(schema, fragments, level) {
      forall path ensures RendersAt(schema, fragments, level, path) {
        RenderedLevels(schema, fragments, level, path);
      }
    }
    if AllLevelsRender(schema, fragments, level) {
      LevelsRender(schema, fragments, level);
    }
  }

  // ----- valid documents -----

  /**
   * What validation checks of selections (GraphQL, October 2021, sections 5.3.1, 5.3.3, 5.5.1 and 5.5.2.1): fields
   * exist, composite fields and only they have sub-selections, type conditions are composite, spreads are defined.
   */
  predicate ValidSelections(schema: Schema, fragments: FragmentMap, scope: string, selections: seq<Selection>)
    decreases selections
  {
    forall s :: s in selections ==> ValidSelection(schema, fragments, scope, s)
  }

  predicate ValidSelection(schema: Schema, fragments: FragmentMap, scope: string, selection: Selection)
    decreases selection
  {
    match selection
    case Field(field) =>
      IsDeclared(schema, scope, field.name)
      && (match field.selectionSet
          case Absent => field.name == "__typename" || !IsComposite(schema, FieldTypeName(schema, scope, field.name))
          case Present(sub) =>
            && field.name != "__typename" && IsComposite(schema, FieldTypeName(schema, scope, field.name))
            && ValidSelections(schema, fragments, FieldTypeName(schema, scope, field.name), sub))
    case FragmentSpread(name) => name in fragments
    case InlineFragment(typeCondition, sub) =>
      var condition := if typeCondition.Some? then typeCondition.value else scope;
      IsComposite(schema, condition) && ValidSelections(schema, fragments, condition, sub)
  }

  function FieldTypeName(schema: Schema, scope: string, name: string): string
    requires name != "__typename" && IsDeclared(schema, scope, name)
  {
    NamedTypeOf(FieldsOf(schema, scope)[name])
  }

  ghost predicate ValidFragments(schema: Schema, fragments: FragmentMap) {
    forall n :: n in fragments ==>
                  IsComposite(schema, fragments[n].typeCondition)
                  && ValidSelections(schema, fragments, fragments[n].typeCondition, fragments[n].selectionSet)
  }

  /** Fields keep their named type in every type that implements the interface declaring them. */
  ghost predicate KeepsNamedTypes(schema: Schema) {
    forall t, i, f :: Implements(schema, t, i) && HasFields(schema, i) && f in FieldsOf(schema, i)
                      && f in FieldsOf(schema, t) ==>
                        NamedTypeOf(FieldsOf(schema, t)[f]) == NamedTypeOf(FieldsOf(schema, i)[f])
  }

  lemma {:induction false} ValidCollects(schema: Schema, fragments: FragmentMap, concrete: string, scope: string,
                                         selections: seq<Selection>, active: set<string>)
    requires ValidFragments(schema, fragments) && ValidSelections(schema, fragments, scope, selections)
    ensures CollectFields(schema, fragments, concrete, scope, selections, active).Ok?
    ensures forall c :: c in CollectFields(schema, fragments, concrete, scope, selections, active).value ==>
                          ValidSelection(schema, fragments, c.scope, Field(c.field))
    decreases |Inactive(fragments, active)|, Size(selections), 1
  {
    if selections != [] {
      ValidHeadCollects(schema, fragments, concrete, scope, selections[0], active);
      ValidCollects(schema, fragments, concrete, scope, selections[1..], active);
    }
  }

  lemma {:induction false} ValidHeadCollects(schema: Schema, fragments: FragmentMap, concrete: string, scope: string,
                                             selection: Selection, active: set<string>)
    requires ValidFragments(schema, fragments) && ValidSelection(schema, fragments, scope, selection)
    ensures CollectSelection(schema, fragments, concrete, scope, selection, active).Ok?
    ensures forall c :: c in CollectSelection(schema, fragments, concrete, scope, selection, active).value ==>
                          ValidSelection(schema, fragments, c.scope, Field(c.field))
    decreases |Inactive(fragments, active)|, SelectionSize(selection), 0
  {
    match selection
    case Field(_) =>
    case FragmentSpread(name) =>
      if name !in active {
        EnteringShrinksInactive(fragments, active, name);
        ValidCollects(schema, fragments, concrete, fragments[name].typeCondition, fragments[name].selectionSet,
                      active + {name});
      }
    case InlineFragment(typeCondition, sub) =>
      var condition := if typeCondition.Some? then typeCondition.value else scope;
      ValidCollects(schema, fragments, concrete, condition, sub, active);
  }

  ghost predicate ValidContexts(schema: Schema, fragments: FragmentMap, scope: string,
                                contexts: seq<SelectionSetContext>)
  {
    forall c :: c in contexts ==> ValidSelections(schema, fragments, scope, c.selectionSet)
  }

  lemma {:induction false} ValidContextsCollect(schema: Schema, fragments: FragmentMap, concrete: string,
                                                parent: string, contexts: seq<SelectionSetContext>)
    requires ValidFragments(schema, fragments) && ValidContexts(schema, fragments, parent, contexts)
    ensures CollectContexts(schema, fragments, concrete, parent, contexts).Ok?
    ensures forall c :: c in CollectContexts(schema, fragments, concrete, parent, contexts).value ==>
                          ValidSelection(schema, fragments, c.scope, Field(c.field))
  {
    if contexts != [] {
      ValidCollects(schema, fragments, concrete, parent, contexts[0].selectionSet, contexts[0].active);
      ValidContextsCollect(schema, fragments, concrete, parent, contexts[1..]);
    }
  }

  /** Scopes that apply to one object type declare a field with one named type. */
  lemma SameNamedType(schema: Schema, scope: string, concrete: string, name: string)
    requires ValidSchema(schema) && KeepsNamedTypes(schema) && concrete in PossibleObjectTypes(schema, scope)
    requires name != "__typename" && IsDeclared(schema, scope, name)
    ensures HasFields(schema, concrete) && name in FieldsOf(schema, concrete)
    ensures FieldTypeName(schema, scope, name) == NamedTypeOf(FieldsOf(schema, concrete)[name])
  {
    ScopeFieldOnConcrete(schema, scope, concrete, name);
    assert scope != concrete ==> Implements(schema, concrete, scope);
  }

  /** The level below a response key is valid, and answers selections that can be merged. */
  ghost predicate ValidLevel(schema: Schema, fragments: FragmentMap, level: Level, merged: seq<Selection>) {
    && ValidContexts(schema, fragments, level.parent, level.contexts) && Covers(level.contexts, merged)
    && forall concrete :: concrete in PossibleObjectTypes(schema, level.parent) ==>
                            CanMerge(schema, fragments, concrete, merged)
  }

  lemma GroupOfOneField(schema: Schema, fragments: FragmentMap, level: Level, merged: seq<Selection>, concrete: string,
                        key: string, c: FieldContext)
    requires ValidSchema(schema) && KeepsNamedTypes(schema) && ValidFragments(schema, fragments)
    requires ValidLevel(schema, fragments, level, merged) && concrete in PossibleObjectTypes(schema, level.parent)
    requires CollectContexts(schema, fragments, concrete, level.parent, level.contexts).Ok?
    requires c in WithKey(CollectContexts(schema, fragments, concrete, level.parent, level.contexts).value, key)
    ensures var collected := CollectContexts(schema, fragments, concrete, level.parent, level.contexts).value;
            var first := WithKey(collected, key)[0];
            && c.field.name == first.field.name
            && concrete in PossibleObjectTypes(schema, c.scope)
            && concrete in PossibleObjectTypes(schema, first.scope)
            && c.field in ResponseFields(schema, fragments, concrete, merged)
            && ValidSelection(schema, fragments, c.scope, Field(c.field))
            && ValidSelection(schema, fragments, first.scope, Field(first.field))
  {
    var collected := CollectContexts(schema, fragments, concrete, level.parent, level.contexts).value;
    var first := WithKey(collected, key)[0];
    WithKeyMembers(collected, key);
    ValidContextsCollect(schema, fragments, concrete, level.parent, level.contexts);
    assert first in WithKey(collected, key);
    CollectedIsAnswered(schema, fragments, level.parent, concrete, level.contexts, merged, c);
    CollectedIsAnswered(schema, fragments, level.parent, concrete, level.contexts, merged, first);
    SameKeySameName(schema, fragments, concrete, merged, c.field, first.field);
  }

  lemma BeneathIsValid(schema: Schema, fragments: FragmentMap, level: Level, merged: seq<Selection>, move: Move)
    returns (below: seq<Selection>)
    requires ValidSchema(schema) && KeepsNamedTypes(schema) && ValidFragments(schema, fragments)
    requires ValidLevel(schema, fragments, level, merged)
    requires Inner(schema, fragments, level, move).Some?
    ensures ValidLevel(schema, fragments, Inner(schema, fragments, level, move).value, below)
  {
    var concrete, key := move.concrete, move.key;
    var collected := CollectContexts(schema, fragments, concrete, level.parent, level.contexts).value;
    var group := WithKey(collected, key);
    var inner := Inner(schema, fragments, level, move).value;
    below := MergedSelections(FieldsWithKey(ResponseFields(schema, fragments, concrete, merged), key));
    NestedCovers(schema, fragments, level.parent, concrete, level.contexts, merged, key);
    var first := group[0];
    GroupOfOneField(schema, fragments, level, merged, concrete, key, first);
    SameNamedType(schema, first.scope, concrete, first.field.name);
    WithKeyMembers(collected, key);
    BelowCanMerge(schema, fragments, concrete, merged, first.field);
    forall n | n in inner.contexts ensures ValidSelections(schema, fragments, inner.parent, n.selectionSet) {
      var c := NestedOrigin(group, n);
      GroupOfOneField(schema, fragments, level, merged, concrete, key, c);
      SameNamedType(schema, c.scope, concrete, c.field.name);
    }
  }

  lemma {:induction false} ValidLevelRenders(schema: Schema, fragments: FragmentMap, level: Level,
                                             merged: seq<Selection>)
    requires ValidSchema(schema) && KeepsNamedTypes(schema) && ValidFragments(schema, fragments)
    requires ValidLevel(schema, fragments, level, merged)
    ensures Renders(schema, fragments, level)
    decreases MaxRank(fragments, level.contexts)
  {
    forall concrete | concrete in PossibleObjectTypes(schema, level.parent)
      ensures ObjectRenders(schema, fragments, level, concrete)
    {
      ValidContextsCollect(schema, fragments, concrete, level.parent, level.contexts);
      var collected := CollectContexts(schema, fragments, concrete, level.parent, level.contexts).value;
      forall key | key in KeysOf(collected) ensures LeaderDeclared(schema, WithKey(collected, key)) {
        WithKeyMembers(collected, key);
        assert WithKey(collected, key)[0] in WithKey(collected, key);
      }
    }
    forall move ensures InnerRenders(schema, fragments, level, move) {
      if Inner(schema, fragments, level, move).Some? {
        var below := BeneathIsValid(schema, fragments, level, merged, move);
        InnerIsSmaller(schema, fragments, level, move);
        ValidLevelRenders(schema, fragments, Inner(schema, fragments, level, move).value, below);
      }
    }
    LevelOk(schema, fragments, level);
  }

  /** Every valid selection renders, if implementing types keep the named types of interface fields. */
  lemma ValidRenders(schema: Schema, fragments: FragmentMap, root: string, selections: seq<Selection>)
    requires ValidSchema(schema) && KeepsNamedTypes(schema) && ValidFragments(schema, fragments)
    requires IsObject(schema, root) && ValidSelections(schema, fragments, root, selections)
    requires CanMerge(schema, fragments, root, selections)
    ensures RenderSelectionSet(schema, fragments, root, [SelectionSetContext(selections, {})]).Ok?
  {
    ValidLevelRenders(schema, fragments, Level(root, [SelectionSetContext(selections, {})]), selections);
  }

  // ----- whole documents -----

  lemma {:induction false} ValidSpreads(schema: Schema, fragments: FragmentMap, scope: string,
                                        selections: seq<Selection>)
    requires ValidSelections(schema, fragments, scope, selections)
    ensures SpreadsIn(selections) <= fragments.Keys
    decreases selections
  {
    if selections != [] {
      assert ValidSelection(schema, fragments, scope, selections[0]);
      ValidHeadSpreads(schema, fragments, scope, selections[0]);
      ValidSpreads(schema, fragments, scope, selections[1..]);
    }
  }

  lemma {:induction false} ValidHeadSpreads(schema: Schema, fragments: FragmentMap, scope: string,
                                            selection: Selection)
    requires ValidSelection(schema, fragments, scope, selection)
    ensures SpreadsInHead(selection) <= fragments.Keys
    decreases selection
  {
    match selection
    case Field(field) =>
      if field.selectionSet.Present? {
        ValidSpreads(schema, fragments, FieldTypeName(schema, scope, field.name), field.selectionSet.selections);
      }
    case FragmentSpread(_) =>
    case InlineFragment(typeCondition, sub) =>
      ValidSpreads(schema, fragments, if typeCondition.Some? then typeCondition.value else scope, sub);
  }

  /** The operation passes validation against the root type the schema declares for it. */
  ghost predicate ValidOperation(schema: Schema, fragments: FragmentMap, operation: Definition)
    requires operation.OperationDefinition?
  {
    exists root :: && IsRoot(schema, operation.kind, root)
                   && ValidSelections(schema, fragments, root, operation.selectionSet)
                   && CanMerge(schema, fragments, root, operation.selectionSet)
  }

  lemma ValidOperationEmits(schema: Schema, fragments: FragmentMap, operation: Definition)
    requires ValidSchema(schema) && KeepsNamedTypes(schema) && ValidFragments(schema, fragments)
    requires operation.OperationDefinition? && ValidOperation(schema, fragments, operation)
    ensures EmitDefinition(schema, fragments, operation).Ok?
  {
    var root :| && IsRoot(schema, operation.kind, root)
                && ValidSelections(schema, fragments, root, operation.selectionSet)
                && CanMerge(schema, fragments, root, operation.selectionSet);
    ValidSpreads(schema, fragments, root, operation.selectionSet);
    forall n | n in fragments ensures SpreadsIn(fragments[n].selectionSet) <= fragments.Keys {
      ValidSpreads(schema, fragments, fragments[n].typeCondition, fragments[n].selectionSet);
    }
    HasCacheOnlyIsReachability(operation.selectionSet, fragments);
    RootIsDeclared(schema, operation.kind, root);
    assert Some(root) in [schema.query, schema.mutation, schema.subscription];
    ValidRenders(schema, fragments, root, operation.selectionSet);
  }

  /** A document whose operations and fragments are valid is compiled without an error. */
  lemma ValidDocumentCompiles(schema: Schema, definitions: seq<Definition>)
    requires ValidSchema(schema) && KeepsNamedTypes(schema)
    requires ValidFragments(schema, FragmentsOf(definitions))
    requires forall d :: d in definitions && d.OperationDefinition? ==>
               ValidOperation(schema, FragmentsOf(definitions), d)
    ensures EmitAll(schema, FragmentsOf(definitions), definitions).Ok?
  {
    forall d | d in definitions ensures EmitDefinition(schema, FragmentsOf(definitions), d).Ok? {
      if d.OperationDefinition? {
        ValidOperationEmits(schema, FragmentsOf(definitions), d);
      }
    }
    FirstErrorIsThrown(schema, FragmentsOf(definitions), definitions);
  }
}
