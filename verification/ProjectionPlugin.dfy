/** The plugin: which operations get a generated result type, and what that type promises. */
module ProjectionPlugin {
  import opened Outcomes
  import opened GraphqlTypes
  import opened ProjectionDocument
  import opened ProjectionRender
  import opened ResponseSemantics
  import opened FieldReachability
  import opened CacheOnlySearch
  import opened ProjectionSoundness
  import opened ProjectionStrip

  datatype Definition =
    | OperationDefinition(name: Option<string>, kind: OperationKind, selectionSet: seq<Selection>)
    | FragmentDefinition(name_: string, fragment: Fragment)

  /** `export type {name}Result = ...`, where `None` stands for `void`. */
  datatype Emitted = Emitted(name: string, type_: Option<Ts>)

  /** Later definitions of a name replace earlier ones. */
  function FragmentsOf(definitions: seq<Definition>): FragmentMap {
    if definitions == [] then map[]
    else
      var last := definitions[|definitions| - 1];
      var before := FragmentsOf(definitions[..|definitions| - 1]);
      if last.FragmentDefinition? then before[last.name_ := last.fragment] else before
  }

  function OperationRoot(schema: Schema, kind: OperationKind): Rendered<string> {
    var root := match kind
      case Query => schema.query
      case Mutation => schema.mutation
      case Subscription => schema.subscription;
    match root
    case Some(name) => Ok(name)
    case None => Err(MissingRoot(kind))
  }

  /** The root object type the schema declares for an operation of this kind. */
  predicate IsRoot(schema: Schema, kind: OperationKind, root: string) {
    match kind
    case Query => schema.query == Some(root)
    case Mutation => schema.mutation == Some(root)
    case Subscription => schema.subscription == Some(root)
  }

  lemma RootIsDeclared(schema: Schema, kind: OperationKind, root: string)
    ensures OperationRoot(schema, kind) == Ok(root) <==> IsRoot(schema, kind, root)
  {
  }

  /** The types emitted for one definition: none or one. */
  function EmitDefinition(schema: Schema, fragments: FragmentMap, definition: Definition): Rendered<seq<Emitted>> {
    if definition.FragmentDefinition? || definition.name.None? then Ok([])
    else
      match HasCacheOnly(definition.selectionSet, fragments, {})
      case Err(name) => Err(UnknownFragment(name))
      case Ok(false) => Ok([])
      case Ok(true) =>
        match OperationRoot(schema, definition.kind)
        case Err(e) => Err(e)
        case Ok(root) =>
          match RenderSelectionSet(schema, fragments, root, [SelectionSetContext(definition.selectionSet, {})])
          case Err(e) => Err(e)
          case Ok(projection) => Ok([Emitted(definition.name.value, projection)])
  }

  function EmitAll(schema: Schema, fragments: FragmentMap, definitions: seq<Definition>): Rendered<seq<Emitted>> {
    if definitions == [] then Ok([])
    else
      match EmitAll(schema, fragments, definitions[..|definitions| - 1])
      case Err(e) => Err(e)
      case Ok(before) =>
        match EmitDefinition(schema, fragments, definitions[|definitions| - 1])
        case Err(e) => Err(e)
        case Ok(emitted) => Ok(before + emitted)
  }

  /** `v` is a complete response to the operation, executed against `fragments` with `selections`. */
  ghost predicate OperationResponse(schema: Schema, fragments: FragmentMap, kind: OperationKind,
                                    selections: seq<Selection>, v: Value)
  {
    && OperationRoot(schema, kind).Ok?
    && ObjectResponse(schema, fragments, OperationRoot(schema, kind).value, selections, v)
  }

  ghost predicate OperationCanMerge(schema: Schema, fragments: FragmentMap, kind: OperationKind,
      selections: seq<Selection>) {
    OperationRoot(schema, kind).Ok? ==> CanMerge(schema, fragments, OperationRoot(schema, kind).value, selections)
  }

  /** A type is emitted exactly for the named operations that reach a `@cacheOnly` field. */
  lemma EmittedIffCacheOnly(schema: Schema, fragments: FragmentMap, definition: Definition)
    requires EmitDefinition(schema, fragments, definition).Ok?
    ensures EmitDefinition(schema, fragments, definition).value != [] <==>
            definition.OperationDefinition? && definition.name.Some?
            && ReachesCacheOnly(definition.selectionSet, fragments)
  {
    if definition.OperationDefinition? {
      HasCacheOnlyIsReachability(definition.selectionSet, fragments);
    }
  }

  ghost predicate DefinesAt(definitions: seq<Definition>, i: nat, name: string) {
    i < |definitions| && definitions[i].FragmentDefinition? && definitions[i].name_ == name
  }

  ghost predicate DefinesLast(definitions: seq<Definition>, i: nat, name: string) {
    DefinesAt(definitions, i, name) && forall j: nat :: i < j ==> !DefinesAt(definitions, j, name)
  }

  /** The document's fragments are those it defines, each by its last definition. */
  lemma {:induction false} FragmentsAreDefined(definitions: seq<Definition>, name: string)
    ensures name in FragmentsOf(definitions) <==> exists i: nat :: DefinesAt(definitions, i, name)
    ensures forall i: nat :: DefinesLast(definitions, i, name) ==>
                               FragmentsOf(definitions)[name] == definitions[i].fragment
  {
    if definitions != [] {
      var n := |definitions| - 1;
      var before := definitions[..n];
      FragmentsAreDefined(before, name);
      forall i: nat | i < n ensures DefinesAt(before, i, name) <==> DefinesAt(definitions, i, name) {
      }
      if DefinesAt(definitions, n, name) {
        assert forall i: nat :: DefinesAt(definitions, i, name) ==> i == n || i < n;
      } else if i: nat :| DefinesAt(definitions, i, name) {
        assert i < n && DefinesAt(before, i, name);
      }
      forall i: nat | DefinesLast(definitions, i, name)
        ensures FragmentsOf(definitions)[name] == definitions[i].fragment
      {
        if i < n {
          assert DefinesAt(before, i, name);
          forall j: nat | i < j ensures !DefinesAt(before, j, name) {
            assert DefinesAt(before, j, name) ==> DefinesAt(definitions, j, name);
          }
          assert DefinesLast(before, i, name);
        }
      }
    }
  }

  /** The named operations that reach a `@cacheOnly` field, in document order. */
  ghost function Emitting(fragments: FragmentMap, definitions: seq<Definition>): seq<Definition> {
    if definitions == [] then []
    else
      var last := definitions[|definitions| - 1];
      Emitting(fragments, definitions[..|definitions| - 1])
      + if last.OperationDefinition? && last.name.Some? && ReachesCacheOnly(last.selectionSet, fragments)
        then [last] else []
  }

  /** A definition emits its own type or nothing. */
  lemma EmittedOnce(schema: Schema, fragments: FragmentMap, definition: Definition)
    requires EmitDefinition(schema, fragments, definition).Ok?
    ensures var emitted := EmitDefinition(schema, fragments, definition).value;
            if definition.OperationDefinition? && definition.name.Some?
               && ReachesCacheOnly(definition.selectionSet, fragments)
            then |emitted| == 1 && Some(emitted[0].name) == definition.name
            else emitted == []
  {
    EmittedIffCacheOnly(schema, fragments, definition);
  }

  /** The output has one type for each of those operations, in order and under its name. */
  lemma {:induction false} OutputIsInOrder(schema: Schema, fragments: FragmentMap, definitions: seq<Definition>)
    requires EmitAll(schema, fragments, definitions).Ok?
    ensures var output, emitting := EmitAll(schema, fragments, definitions).value, Emitting(fragments, definitions);
            && |output| == |emitting|
            && forall k :: 0 <= k < |output| ==>
                 EmitDefinition(schema, fragments, emitting[k]) == Ok([output[k]])
                 && emitting[k].name == Some(output[k].name)
  {
    if definitions != [] {
      var n := |definitions| - 1;
      OutputIsInOrder(schema, fragments, definitions[..n]);
      EmittedOnce(schema, fragments, definitions[n]);
      var emitted := EmitDefinition(schema, fragments, definitions[n]).value;
      if emitted != [] {
        assert emitted == [emitted[0]];
      }
    }
  }

  /** Nothing is output exactly when some definition fails, and then the first failure is thrown. */
  lemma {:induction false} FirstErrorIsThrown(schema: Schema, fragments: FragmentMap, definitions: seq<Definition>)
    ensures EmitAll(schema, fragments, definitions).Ok? <==>
            forall d :: d in definitions ==> EmitDefinition(schema, fragments, d).Ok?
    ensures EmitAll(schema, fragments, definitions).Err? ==>
              exists i :: 0 <= i < |definitions|
                          && EmitDefinition(schema, fragments, definitions[i])
                             == Err(EmitAll(schema, fragments, definitions).error)
                          && forall j :: 0 <= j < i ==> EmitDefinition(schema, fragments, definitions[j]).Ok?
  {
    if definitions != [] {
      var n := |definitions| - 1;
      var before := definitions[..n];
      FirstErrorIsThrown(schema, fragments, before);
      assert forall d :: d in definitions <==> d in before || d == definitions[n];
      if EmitAll(schema, fragments, before).Ok? {
        forall j | 0 <= j < n ensures EmitDefinition(schema, fragments, definitions[j]).Ok? {
          assert definitions[j] in before;
        }
      } else {
        var i :| 0 <= i < n
                 && EmitDefinition(schema, fragments, before[i]) == Err(EmitAll(schema, fragments, before).error)
                 && forall j :: 0 <= j < i ==> EmitDefinition(schema, fragments, before[j]).Ok?;
        assert definitions[i] == before[i];
        forall j | 0 <= j < i ensures EmitDefinition(schema, fragments, definitions[j]).Ok? {
          assert definitions[j] == before[j];
        }
      }
    }
  }

  /** Every response to the whole operation has the generated type, `@cacheOnly` fields being extra width. */
  lemma ResponsesFit(schema: Schema, fragments: FragmentMap, operation: Definition, emitted: Emitted, v: Value)
    requires ValidSchema(schema)
    requires operation.OperationDefinition?
    requires EmitDefinition(schema, fragments, operation) == Ok([emitted])
    requires OperationCanMerge(schema, fragments, operation.kind, operation.selectionSet)
    requires OperationResponse(schema, fragments, operation.kind, operation.selectionSet, v)
    ensures emitted.type_.Some? ==> Fits(schema, v, emitted.type_.value, false)
  {
    var root := OperationRoot(schema, operation.kind).value;
    var contexts := [SelectionSetContext(operation.selectionSet, {})];
    assert root in PossibleObjectTypes(schema, root);
    JoinedFits(schema, fragments, root, root, contexts, operation.selectionSet, v, false);
  }

  /** What is emitted for an operation is what its stripped form renders to. */
  lemma EmittedIsStripped(schema: Schema, fragments: FragmentMap, operation: Definition, emitted: Emitted, root: string)
    requires operation.OperationDefinition? && OperationRoot(schema, operation.kind) == Ok(root)
    requires EmitDefinition(schema, fragments, operation) == Ok([emitted])
    ensures RenderSelectionSet(schema, StripFragments(fragments), root,
                               [SelectionSetContext(Strip(operation.selectionSet), {})]) == Ok(emitted.type_)
  {
    var contexts := [SelectionSetContext(operation.selectionSet, {})];
    RenderStripped(schema, fragments, root, contexts);
    assert contexts[1..] == [];
    assert StripContexts(contexts) == [SelectionSetContext(Strip(operation.selectionSet), {})];
  }

  /** So does every response restricted to the fields not marked `@cacheOnly`, fragment cycles or not. */
  lemma RestrictedResponsesFit(schema: Schema, fragments: FragmentMap, operation: Definition, emitted: Emitted,
      v: Value)
    requires ValidSchema(schema)
    requires operation.OperationDefinition?
    requires EmitDefinition(schema, fragments, operation) == Ok([emitted])
    requires OperationCanMerge(schema, fragments, operation.kind, operation.selectionSet)
    requires OperationResponse(schema, StripFragments(fragments), operation.kind, Strip(operation.selectionSet), v)
    ensures emitted.type_.Some? ==> Fits(schema, v, emitted.type_.value, false)
  {
    var root := OperationRoot(schema, operation.kind).value;
    EmittedIsStripped(schema, fragments, operation, emitted, root);
    StripCanMerge(schema, fragments, root, operation.selectionSet);
    assert root in PossibleObjectTypes(schema, root);
    JoinedFits(schema, StripFragments(fragments), root, root, [SelectionSetContext(Strip(operation.selectionSet), {})],
               Strip(operation.selectionSet), v, false);
  }

  /**
   * Without fragment cycles the generated type is also complete: a restricted response holds no visible
   * data the type leaves out, and `void` is emitted only when nothing at all is visible.
   */
  lemma RestrictedResponsesFitExactly(schema: Schema, fragments: FragmentMap, operation: Definition, emitted: Emitted,
      v: Value)
    requires ValidSchema(schema) && NoFragmentCycles(fragments)
    requires operation.OperationDefinition?
    requires EmitDefinition(schema, fragments, operation) == Ok([emitted])
    requires OperationCanMerge(schema, fragments, operation.kind, operation.selectionSet)
    requires OperationResponse(schema, StripFragments(fragments), operation.kind, Strip(operation.selectionSet), v)
    ensures ProjectionFits(schema, v, emitted.type_, true)
  {
    var root := OperationRoot(schema, operation.kind).value;
    var stripped, selections := StripFragments(fragments), Strip(operation.selectionSet);
    var contexts := [SelectionSetContext(selections, {})];
    EmittedIsStripped(schema, fragments, operation, emitted, root);
    StripCanMerge(schema, fragments, root, operation.selectionSet);
    StripKeepsAcyclic(fragments);
    StripIsVisible(operation.selectionSet);
    forall n | n in stripped ensures !HasDirectCacheOnly(stripped[n].selectionSet) {
      StripIsVisible(fragments[n].selectionSet);
    }
    assert contexts[0] in contexts;
    assert Exhausts(stripped, contexts, selections);
    assert root in PossibleObjectTypes(schema, root);
    JoinedFits(schema, stripped, root, root, contexts, selections, v, true);
  }
}
