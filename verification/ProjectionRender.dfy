/** What the projection compiler renders, as functions on values, and why rendering terminates. */
module ProjectionRender {
  import opened Outcomes
  import opened GraphqlTypes
  import opened ProjectionDocument

  /** Rendered TypeScript types. */
  datatype Ts =
    | StringType
    | NumberType
    | BooleanType
    | UnknownType
    | EnumType(name: string)
    | Literal(text: string)
    | ArrayOf(item: Ts)
    | OrNull(type_: Ts)
    | Record(properties: seq<Property>)
    | UnionOf(branches: seq<Ts>)

  datatype Property = Property(key: string, type_: Ts)

  datatype RenderError =
    | UnknownFragment(fragment: string)
    | NotComposite(typeCondition: string)
    | FieldsBeneathUnion(scope: string)
    | UnknownField(scope: string, field: string)
    | UnrenderableLeaf(leaf: string)
    | MissingRoot(kind: OperationKind)

  datatype OperationKind = Query | Mutation | Subscription

  type Rendered<T> = Result<T, RenderError>

  datatype SelectionSetContext = SelectionSetContext(selectionSet: seq<Selection>, active: set<string>)

  datatype FieldContext = FieldContext(field: FieldNode, scope: string, active: set<string>)

  // ----- types -----

  function LeafType(schema: Schema, name: string): Rendered<Ts> {
    if name in schema.types && schema.types[name].Scalar? then
      if name == "ID" || name == "String" then Ok(StringType)
      else if name == "Int" || name == "Float" then Ok(NumberType)
      else if name == "Boolean" then Ok(BooleanType)
      else Ok(UnknownType)
    else if name in schema.types && schema.types[name].Enum? then Ok(EnumType(name))
    else Err(UnrenderableLeaf(name))
  }

  function WrapType(t: TypeRef, named: Ts): Ts {
    match t
    case NonNull(of) => WrapBare(of, named)
    case Nullable(of) => OrNull(WrapBare(of, named))
  }

  function WrapBare(t: BareRef, named: Ts): Ts {
    match t
    case ListOf(item) => ArrayOf(WrapType(item, named))
    case Named(_) => named
  }

  // ----- a measure for nested rendering -----

  ghost function MaxFragmentSize(fragments: FragmentMap): (max: nat)
    ensures forall n :: n in fragments ==> Size(fragments[n].selectionSet) <= max
  {
    if fragments.Keys == {} then 0
    else
      var n :| n in fragments;
      var rest := MaxFragmentSize(fragments - {n});
      assert forall m :: m in fragments && m != n ==> m in fragments - {n} && (fragments - {n})[m] == fragments[m];
      if rest < Size(fragments[n].selectionSet) then Size(fragments[n].selectionSet) else rest
  }

  /** `count` fragments, each worth more than any fragment body. */
  ghost function Weight(count: nat, fragments: FragmentMap): nat {
    if count == 0 then 0 else 1 + MaxFragmentSize(fragments) + Weight(count - 1, fragments)
  }

  /** Fragments not yet active come first; the selection size decides among equals. */
  ghost function Rank(fragments: FragmentMap, selections: seq<Selection>, active: set<string>): nat {
    Weight(|Inactive(fragments, active)|, fragments) + Size(selections)
  }

  lemma {:induction false} WeightIncreases(fragments: FragmentMap, fewer: nat, more: nat)
    requires fewer < more
    ensures Weight(fewer, fragments) + MaxFragmentSize(fragments) < Weight(more, fragments)
  {
    if fewer + 1 < more {
      WeightIncreases(fragments, fewer, more - 1);
    }
  }

  lemma EnteringLowersRank(fragments: FragmentMap, active: set<string>, name: string)
    requires name in fragments && name !in active
    ensures Rank(fragments, fragments[name].selectionSet, active + {name})
            < Weight(|Inactive(fragments, active)|, fragments)
  {
    EnteringShrinksInactive(fragments, active, name);
    WeightIncreases(fragments, |Inactive(fragments, active + {name})|, |Inactive(fragments, active)|);
  }

  ghost function FieldRank(fragments: FragmentMap, c: FieldContext): nat {
    Rank(fragments, SubSelections(c.field), c.active)
  }

  /** Every nested context is strictly smaller than `bound`. */
  ghost predicate Below(fragments: FragmentMap, contexts: seq<FieldContext>, bound: nat) {
    forall c :: c in contexts ==> FieldRank(fragments, c) < bound
  }

  ghost function MaxFieldRank(fragments: FragmentMap, contexts: seq<FieldContext>): (max: nat)
    ensures Below(fragments, contexts, max)
  {
    if contexts == [] then 0
    else
      var rest := MaxFieldRank(fragments, contexts[1..]);
      var head := FieldRank(fragments, contexts[0]) + 1;
      if rest < head then head else rest
  }

  lemma {:induction false} MaxFieldRankIsLeast(fragments: FragmentMap, contexts: seq<FieldContext>, bound: nat)
    requires Below(fragments, contexts, bound)
    ensures MaxFieldRank(fragments, contexts) <= bound
  {
    if contexts != [] {
      assert contexts[0] in contexts;
      MaxFieldRankIsLeast(fragments, contexts[1..], bound);
    }
  }

  ghost function MaxRank(fragments: FragmentMap, contexts: seq<SelectionSetContext>): (max: nat)
    ensures forall c :: c in contexts ==> Rank(fragments, c.selectionSet, c.active) <= max
  {
    if contexts == [] then 0
    else
      var rest := MaxRank(fragments, contexts[1..]);
      var head := Rank(fragments, contexts[0].selectionSet, contexts[0].active);
      assert contexts[0] in contexts;
      if rest < head then head else rest
  }

  // ----- collecting fields -----

  /** Fields that apply to `concrete`, in the order `renderSelections` pushes them. */
  function CollectFields(schema: Schema, fragments: FragmentMap, concrete: string,
                         scope: string, selections: seq<Selection>, active: set<string>)
    : Rendered<seq<FieldContext>>
    decreases |Inactive(fragments, active)|, Size(selections), 1
  {
    if selections == [] then Ok([])
    else
      match CollectSelection(schema, fragments, concrete, scope, selections[0], active)
      case Err(e) => Err(e)
      case Ok(first) =>
        match CollectFields(schema, fragments, concrete, scope, selections[1..], active)
        case Err(e) => Err(e)
        case Ok(rest) => Ok(first + rest)
  }

  function CollectSelection(schema: Schema, fragments: FragmentMap, concrete: string,
                            scope: string, selection: Selection, active: set<string>)
    : Rendered<seq<FieldContext>>
    decreases |Inactive(fragments, active)|, SelectionSize(selection), 0
  {
    match selection
    case Field(field) =>
      if IsCacheOnly(field) then Ok([]) else Ok([FieldContext(field, scope, active)])
    case FragmentSpread(name) =>
      if name !in fragments then Err(UnknownFragment(name))
      else if name in active then Ok([])
      else
        var condition := fragments[name].typeCondition;
        if !IsComposite(schema, condition) then Err(NotComposite(condition))
        else if !TypeConditionApplies(schema, condition, concrete) then Ok([])
        else
          EnteringShrinksInactive(fragments, active, name);
          CollectFields(schema, fragments, concrete, condition, fragments[name].selectionSet, active + {name})
    case InlineFragment(typeCondition, sub) =>
      if typeCondition.Some? && !IsComposite(schema, typeCondition.value)
      then Err(NotComposite(typeCondition.value))
      else
        var condition := if typeCondition.Some? then typeCondition.value else scope;
        if !TypeConditionApplies(schema, condition, concrete) then Ok([])
        else CollectFields(schema, fragments, concrete, condition, sub, active)
  }

  function CollectContexts(schema: Schema, fragments: FragmentMap, concrete: string,
                           parent: string, contexts: seq<SelectionSetContext>)
    : Rendered<seq<FieldContext>>
  {
    if contexts == [] then Ok([])
    else
      match CollectFields(schema, fragments, concrete, parent, contexts[0].selectionSet, contexts[0].active)
      case Err(e) => Err(e)
      case Ok(first) =>
        match CollectContexts(schema, fragments, concrete, parent, contexts[1..])
        case Err(e) => Err(e)
        case Ok(rest) => Ok(first + rest)
  }

  lemma {:induction false} CollectedBelow(schema: Schema, fragments: FragmentMap, concrete: string,
                                          scope: string, selections: seq<Selection>, active: set<string>)
    requires CollectFields(schema, fragments, concrete, scope, selections, active).Ok?
    ensures Below(fragments, CollectFields(schema, fragments, concrete, scope, selections, active).value,
                  Rank(fragments, selections, active))
    decreases |Inactive(fragments, active)|, Size(selections), 1
  {
    if selections != [] {
      CollectedBelowInHead(schema, fragments, concrete, scope, selections[0], active);
      CollectedBelow(schema, fragments, concrete, scope, selections[1..], active);
    }
  }

  lemma {:induction false} CollectedBelowInHead(schema: Schema, fragments: FragmentMap, concrete: string,
                                                scope: string, selection: Selection, active: set<string>)
    requires CollectSelection(schema, fragments, concrete, scope, selection, active).Ok?
    ensures Below(fragments, CollectSelection(schema, fragments, concrete, scope, selection, active).value,
                  Weight(|Inactive(fragments, active)|, fragments) + SelectionSize(selection))
    decreases |Inactive(fragments, active)|, SelectionSize(selection), 0
  {
    var collected := CollectSelection(schema, fragments, concrete, scope, selection, active).value;
    var bound := Weight(|Inactive(fragments, active)|, fragments) + SelectionSize(selection);
    match selection
    case Field(field) =>
      assert forall c :: c in collected ==> c == FieldContext(field, scope, active);
    case FragmentSpread(name) =>
      CollectedBelowInSpread(schema, fragments, concrete, scope, name, active);
      BelowMore(fragments, collected, Weight(|Inactive(fragments, active)|, fragments), bound);
    case InlineFragment(typeCondition, sub) =>
      CollectedBelowInInline(schema, fragments, concrete, scope, typeCondition, sub, active);
      BelowMore(fragments, collected, Rank(fragments, sub, active), bound);
  }

  lemma BelowMore(fragments: FragmentMap, contexts: seq<FieldContext>, less: nat, more: nat)
    requires Below(fragments, contexts, less) && less <= more
    ensures Below(fragments, contexts, more)
  {
  }

  lemma {:induction false} CollectedBelowInInline(schema: Schema, fragments: FragmentMap, concrete: string,
                                                  scope: string, typeCondition: Option<string>,
                                                  sub: seq<Selection>, active: set<string>)
    requires CollectSelection(schema, fragments, concrete, scope, InlineFragment(typeCondition, sub), active).Ok?
    ensures var selection := InlineFragment(typeCondition, sub);
            Below(fragments, CollectSelection(schema, fragments, concrete, scope, selection, active).value,
                  Rank(fragments, sub, active))
    decreases |Inactive(fragments, active)|, Size(sub), 2
  {
    var condition := if typeCondition.Some? then typeCondition.value else scope;
    if TypeConditionApplies(schema, condition, concrete) {
      CollectedBelow(schema, fragments, concrete, condition, sub, active);
    }
  }

  lemma {:induction false} CollectedBelowInSpread(schema: Schema, fragments: FragmentMap, concrete: string,
                                                  scope: string, name: string, active: set<string>)
    requires CollectSelection(schema, fragments, concrete, scope, FragmentSpread(name), active).Ok?
    ensures Below(fragments, CollectSelection(schema, fragments, concrete, scope, FragmentSpread(name), active).value,
                  Weight(|Inactive(fragments, active)|, fragments))
    decreases |Inactive(fragments, active)|, 0, 0
  {
    if CollectSelection(schema, fragments, concrete, scope, FragmentSpread(name), active).value != [] {
      EnteringShrinksInactive(fragments, active, name);
      EnteringLowersRank(fragments, active, name);
      CollectedBelow(schema, fragments, concrete, fragments[name].typeCondition,
                     fragments[name].selectionSet, active + {name});
    }
  }

  /** Nothing collected from some contexts can be rendered at their own size: nesting shrinks. */
  lemma CollectedContextsBelow(schema: Schema, fragments: FragmentMap, concrete: string,
                                                  parent: string, contexts: seq<SelectionSetContext>)
    requires CollectContexts(schema, fragments, concrete, parent, contexts).Ok?
    ensures MaxFieldRank(fragments, CollectContexts(schema, fragments, concrete, parent, contexts).value)
            <= MaxRank(fragments, contexts)
  {
    CollectedContextsBelowMax(schema, fragments, concrete, parent, contexts);
    MaxFieldRankIsLeast(fragments, CollectContexts(schema, fragments, concrete, parent, contexts).value,
                        MaxRank(fragments, contexts));
  }

  lemma {:induction false} CollectedContextsBelowMax(schema: Schema, fragments: FragmentMap, concrete: string,
                                                     parent: string, contexts: seq<SelectionSetContext>)
    requires CollectContexts(schema, fragments, concrete, parent, contexts).Ok?
    ensures Below(fragments, CollectContexts(schema, fragments, concrete, parent, contexts).value,
                  MaxRank(fragments, contexts))
  {
    if contexts != [] {
      CollectedBelow(schema, fragments, concrete, parent, contexts[0].selectionSet, contexts[0].active);
      CollectedContextsBelowMax(schema, fragments, concrete, parent, contexts[1..]);
    }
  }

  /** The response keys of `contexts` in order of first occurrence. */
  function KeysOf(contexts: seq<FieldContext>): seq<string> {
    if contexts == [] then []
    else
      var last := contexts[|contexts| - 1];
      var before := KeysOf(contexts[..|contexts| - 1]);
      if ResponseKey(last.field) in before then before else before + [ResponseKey(last.field)]
  }

  lemma {:induction false} KeysOfMembers(contexts: seq<FieldContext>)
    ensures forall c :: c in contexts ==> ResponseKey(c.field) in KeysOf(contexts)
    ensures forall k :: k in KeysOf(contexts) ==> exists c :: c in contexts && ResponseKey(c.field) == k
    ensures forall i, j :: 0 <= i < j < |KeysOf(contexts)| ==> KeysOf(contexts)[i] != KeysOf(contexts)[j]
  {
    if contexts != [] {
      var before, last := contexts[..|contexts| - 1], contexts[|contexts| - 1];
      KeysOfMembers(before);
      assert forall c :: c in contexts <==> c in before || c == last;
    }
  }

  function WithKey(contexts: seq<FieldContext>, key: string): seq<FieldContext> {
    if contexts == [] then []
    else
      var last := contexts[|contexts| - 1];
      var before := WithKey(contexts[..|contexts| - 1], key);
      if ResponseKey(last.field) == key then before + [last] else before
  }

  lemma {:induction false} WithKeyMembers(contexts: seq<FieldContext>, key: string)
    ensures forall c :: c in WithKey(contexts, key) <==> c in contexts && ResponseKey(c.field) == key
    ensures key in KeysOf(contexts) ==> WithKey(contexts, key) != []
  {
    if contexts != [] {
      var before, last := contexts[..|contexts| - 1], contexts[|contexts| - 1];
      WithKeyMembers(before, key);
      assert forall c :: c in contexts <==> c in before || c == last;
    }
  }

  /** The selection sets of a group's fields, each with the fragments active where it was written. */
  function NestedContexts(group: seq<FieldContext>): seq<SelectionSetContext> {
    if group == [] then []
    else
      match group[0].field.selectionSet
      case Present(sub) => [SelectionSetContext(sub, group[0].active)] + NestedContexts(group[1..])
      case Absent => NestedContexts(group[1..])
  }

  lemma {:induction false} NestedOrigin(group: seq<FieldContext>, n: SelectionSetContext) returns (c: FieldContext)
    requires n in NestedContexts(group)
    ensures c in group && c.field.selectionSet == Present(n.selectionSet) && c.active == n.active
  {
    c := group[0];
    if c.field.selectionSet != Present(n.selectionSet) || c.active != n.active {
      c := NestedOrigin(group[1..], n);
    }
  }

  lemma {:induction false} NestedMember(group: seq<FieldContext>, c: FieldContext)
    requires c in group && c.field.selectionSet.Present?
    ensures SelectionSetContext(c.field.selectionSet.selections, c.active) in NestedContexts(group)
  {
    if group[0] != c {
      NestedMember(group[1..], c);
    }
  }

  lemma {:induction false} HeaviestContext(fragments: FragmentMap, contexts: seq<SelectionSetContext>)
    returns (c: SelectionSetContext)
    requires contexts != []
    ensures c in contexts && MaxRank(fragments, contexts) == Rank(fragments, c.selectionSet, c.active)
  {
    c := contexts[0];
    if contexts[1..] != [] {
      var rest := HeaviestContext(fragments, contexts[1..]);
      if Rank(fragments, c.selectionSet, c.active) <= Rank(fragments, rest.selectionSet, rest.active) {
        c := rest;
      }
    }
  }

  /** Each nested context strictly decreases relative to the context that produced it. */
  lemma NestedContextsAreSmaller(fragments: FragmentMap, group: seq<FieldContext>)
    requires NestedContexts(group) != []
    ensures MaxRank(fragments, NestedContexts(group)) < MaxFieldRank(fragments, group)
  {
    var n := HeaviestContext(fragments, NestedContexts(group));
    var c := NestedOrigin(group, n);
    assert FieldRank(fragments, c) < MaxFieldRank(fragments, group);
  }

  lemma GroupIsNoLarger(fragments: FragmentMap, contexts: seq<FieldContext>, key: string)
    ensures MaxFieldRank(fragments, WithKey(contexts, key)) <= MaxFieldRank(fragments, contexts)
  {
    WithKeyMembers(contexts, key);
    MaxFieldRankIsLeast(fragments, WithKey(contexts, key), MaxFieldRank(fragments, contexts));
  }

  // ----- rendering -----

  function WrapRendered(fieldType: TypeRef, rendered: Rendered<Option<Ts>>): Rendered<Option<Ts>> {
    match rendered
    case Ok(Some(type_)) => Ok(Some(WrapType(fieldType, type_)))
    case other => other
  }

  /** One response key: the property's type, or `None` when nothing of it is visible. */
  function RenderProperty(schema: Schema, fragments: FragmentMap, concrete: string, group: seq<FieldContext>)
    : Rendered<Option<Ts>>
    decreases MaxFieldRank(fragments, group), 0, 0
  {
    if group == [] then Ok(None) else
    var first := group[0];
    if first.field.name == "__typename" then Ok(Some(Literal(concrete)))
    else if !HasFields(schema, first.scope) then Err(FieldsBeneathUnion(first.scope))
    else if first.field.name !in FieldsOf(schema, first.scope) then Err(UnknownField(first.scope, first.field.name))
    else
      var fieldType := FieldsOf(schema, first.scope)[first.field.name];
      var named := NamedTypeOf(fieldType);
      if IsComposite(schema, named) then
        var nested := NestedContexts(group);
        if nested == [] then Ok(None)
        else
          NestedContextsAreSmaller(fragments, group);
          WrapRendered(fieldType, RenderSelectionSet(schema, fragments, named, nested))
      else
        match LeafType(schema, named)
        case Err(e) => Err(e)
        case Ok(type_) => Ok(Some(WrapType(fieldType, type_)))
  }

  function RenderProperties(schema: Schema, fragments: FragmentMap, concrete: string,
                            contexts: seq<FieldContext>, keys: seq<string>)
    : Rendered<seq<Property>>
    decreases MaxFieldRank(fragments, contexts), 1, |keys|
  {
    if keys == [] then Ok([])
    else
      var last := |keys| - 1;
      match RenderProperties(schema, fragments, concrete, contexts, keys[..last])
      case Err(e) => Err(e)
      case Ok(before) =>
        GroupIsNoLarger(fragments, contexts, keys[last]);
        match RenderProperty(schema, fragments, concrete, WithKey(contexts, keys[last]))
        case Err(e) => Err(e)
        case Ok(None) => Ok(before)
        case Ok(Some(type_)) => Ok(before + [Property(keys[last], type_)])
  }

  function RenderSelectionSetForObject(schema: Schema, fragments: FragmentMap, parent: string,
                                       concrete: string, contexts: seq<SelectionSetContext>)
    : Rendered<Option<Ts>>
    decreases MaxRank(fragments, contexts), 2, 0
  {
    match CollectContexts(schema, fragments, concrete, parent, contexts)
    case Err(e) => Err(e)
    case Ok(collected) =>
      CollectedContextsBelow(schema, fragments, concrete, parent, contexts);
      match RenderProperties(schema, fragments, concrete, collected, KeysOf(collected))
      case Err(e) => Err(e)
      case Ok(properties) => Ok(if properties == [] then None else Some(Record(properties)))
  }

  function RenderProjections(schema: Schema, fragments: FragmentMap, parent: string,
                             concretes: seq<string>, contexts: seq<SelectionSetContext>)
    : (r: Rendered<seq<Option<Ts>>>)
    ensures r.Ok? ==> |r.value| == |concretes|
    decreases MaxRank(fragments, contexts), 3, |concretes|
  {
    if concretes == [] then Ok([])
    else
      var last := |concretes| - 1;
      match RenderProjections(schema, fragments, parent, concretes[..last], contexts)
      case Err(e) => Err(e)
      case Ok(before) =>
        match RenderSelectionSetForObject(schema, fragments, parent, concretes[last], contexts)
        case Err(e) => Err(e)
        case Ok(projection) => Ok(before + [projection])
  }

  function OrEmpty(projection: Option<Ts>): Ts {
    match projection
    case Some(type_) => type_
    case None => Record([])
  }

  /** Distinct branches in order of first occurrence; an invisible branch is the empty record. */
  function Branches(projections: seq<Option<Ts>>): (branches: seq<Ts>)
    ensures forall b :: b in branches <==> exists p :: p in projections && OrEmpty(p) == b
    ensures projections != [] ==> branches != []
  {
    if projections == [] then []
    else
      var last := projections[|projections| - 1];
      var before := Branches(projections[..|projections| - 1]);
      assert projections == projections[..|projections| - 1] + [last];
      if OrEmpty(last) in before then before else before + [OrEmpty(last)]
  }

  function JoinProjections(projections: seq<Option<Ts>>): Option<Ts> {
    if forall p :: p in projections ==> p == None then None
    else
      var branches := Branches(projections);
      Some(if |branches| == 1 then branches[0] else UnionOf(branches))
  }

  function RenderSelectionSet(schema: Schema, fragments: FragmentMap, parent: string,
                              contexts: seq<SelectionSetContext>)
    : Rendered<Option<Ts>>
    decreases MaxRank(fragments, contexts), 4, 0
  {
    match RenderProjections(schema, fragments, parent, PossibleObjectTypes(schema, parent), contexts)
    case Err(e) => Err(e)
    case Ok(projections) => Ok(JoinProjections(projections))
  }
}
