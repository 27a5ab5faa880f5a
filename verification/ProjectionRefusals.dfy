/** Valid documents the compiler refuses: a field narrowed by an object type, met first through its interface. */
module ProjectionRefusals {
  import opened Outcomes
  import opened Sequences
  import opened GraphqlTypes
  import opened ProjectionDocument
  import opened ProjectionRender
  import opened ResponseSemantics
  import opened ProjectionErrors

  const TYPENAME := FieldNode(None, "__typename", [], Absent)

  /** `b`, or `b { __typename }` if its type is composite. */
  function Leafward(schema: Schema, scope: string, b: string): FieldNode
    requires b != "__typename" && IsDeclared(schema, scope, b)
  {
    FieldNode(None, b, [],
              if IsComposite(schema, FieldTypeName(schema, scope, b)) then Present([Field(TYPENAME)]) else Absent)
  }

  /** `f { inner }` */
  function Selecting(f: string, inner: FieldNode): FieldNode {
    FieldNode(None, f, [], Present([Field(inner)]))
  }

  /** `... on Interface { f { __typename } } f { b }` */
  function Narrowing(interface: string, f: string, inner: FieldNode): seq<Selection> {
    [InlineFragment(Some(interface), [Field(Selecting(f, TYPENAME))]),
     Field(Selecting(f, inner))]
  }

  /** The object type narrows the interface's field to a type that has a further field `b`. */
  ghost predicate Narrows(schema: Schema, object_: string, interface: string, f: string, b: string) {
    && f != "__typename" && b != "__typename"
    && IsObject(schema, object_) && Implements(schema, object_, interface) && IsInterface(schema, interface)
    && f in FieldsOf(schema, interface) && f in FieldsOf(schema, object_)
    && var wide, narrow := NamedTypeOf(FieldsOf(schema, interface)[f]), NamedTypeOf(FieldsOf(schema, object_)[f]);
       && narrow != wide && PossibleObjectTypes(schema, narrow) != []
       && IsDeclared(schema, narrow, b) && !IsDeclared(schema, wide, b)
  }

  lemma OneField(schema: Schema, fragments: FragmentMap, concrete: string, f: FieldNode)
    ensures ResponseFields(schema, fragments, concrete, [Field(f)]) == [f]
  {
    var selections := [Field(f)];
    assert selections[1..] == [];
    assert CollectResponseHead(schema, fragments, concrete, selections[0], {}) == ([f], {});
    assert CollectResponse(schema, fragments, concrete, selections[1..], {}) == ([], {});
    assert CollectResponse(schema, fragments, concrete, selections, {}).0 == [f] + [];
  }

  lemma TwoFields(schema: Schema, fragments: FragmentMap, concrete: string, f: FieldNode, g: FieldNode)
    ensures ResponseFields(schema, fragments, concrete, [Field(f), Field(g)]) == [f, g]
  {
    var selections := [Field(f), Field(g)];
    assert selections[1..] == [Field(g)];
    OneField(schema, fragments, concrete, g);
    assert CollectResponse(schema, fragments, concrete, selections, {}).0 == [f] + [g];
  }

  lemma NothingMerges(schema: Schema, fragments: FragmentMap, concrete: string, depth: nat)
    ensures CanMergeTo(schema, fragments, concrete, [], depth)
  {
    assert ResponseFields(schema, fragments, concrete, []) == [];
  }

  lemma LeafMerges(schema: Schema, fragments: FragmentMap, concrete: string, f: FieldNode, depth: nat)
    requires SubSelections(f) == []
    ensures CanMergeTo(schema, fragments, concrete, [Field(f)], depth)
  {
    OneField(schema, fragments, concrete, f);
    OneGroup(f);
    if depth > 0 && HasFields(schema, concrete) && f.name in FieldsOf(schema, concrete) {
      forall next | next in PossibleObjectTypes(schema, NamedTypeOf(FieldsOf(schema, concrete)[f.name]))
        ensures CanMergeTo(schema, fragments, next, MergedSelections(FieldsWithKey([f], ResponseKey(f))), depth - 1)
      {
        NothingMerges(schema, fragments, next, depth - 1);
      }
    }
  }

  lemma GroupOfOne(f: FieldNode, key: string)
    ensures FieldsWithKey([f], key) == if ResponseKey(f) == key then [f] else []
  {
    assert [f][1..] == [];
    AppendNothing([f]);
  }

  lemma OneGroup(f: FieldNode)
    ensures FieldsWithKey([f], ResponseKey(f)) == [f]
    ensures MergedSelections([f]) == SubSelections(f)
  {
    GroupOfOne(f, ResponseKey(f));
    assert [f][1..] == [];
    AppendNothing(SubSelections(f));
  }

  lemma GroupOfTwo(f: FieldNode, g: FieldNode, key: string)
    ensures FieldsWithKey([f, g], key)
            == (if ResponseKey(f) == key then [f] else []) + (if ResponseKey(g) == key then [g] else [])
  {
    var fields := [f, g];
    assert fields[1..] == [g];
    GroupOfOne(g, key);
    assert [] + FieldsWithKey([g], key) == FieldsWithKey([g], key);
  }

  lemma MergeOfTwo(f: FieldNode, g: FieldNode)
    ensures MergedSelections([f, g]) == SubSelections(f) + SubSelections(g)
  {
    var fields := [f, g];
    assert fields[1..] == [g];
    OneGroup(g);
  }

  lemma SingleGroups(f: FieldNode, g: FieldNode)
    requires ResponseKey(f) != ResponseKey(g)
    ensures FieldsWithKey([f, g], ResponseKey(f)) == [f] && FieldsWithKey([f, g], ResponseKey(g)) == [g]
  {
    GroupOfTwo(f, g, ResponseKey(f));
    GroupOfTwo(f, g, ResponseKey(g));
  }

  lemma ShortMerges(schema: Schema, fragments: FragmentMap, concrete: string, selections: seq<Selection>, depth: nat)
    requires selections == [] || selections == [Field(TYPENAME)]
    ensures CanMergeTo(schema, fragments, concrete, selections, depth)
  {
    if selections == [] {
      NothingMerges(schema, fragments, concrete, depth);
    } else {
      LeafMerges(schema, fragments, concrete, TYPENAME, depth);
    }
  }

  lemma ChildMerges(schema: Schema, fragments: FragmentMap, concrete: string, fields: seq<FieldNode>, f: FieldNode,
                    depth: nat)
    requires FieldsWithKey(fields, ResponseKey(f)) == [f]
    requires SubSelections(f) == [] || SubSelections(f) == [Field(TYPENAME)]
    ensures ChildrenCanMerge(schema, fragments, concrete, fields, f, depth)
  {
    OneGroup(f);
    if HasFields(schema, concrete) && f.name in FieldsOf(schema, concrete) {
      forall next | next in PossibleObjectTypes(schema, NamedTypeOf(FieldsOf(schema, concrete)[f.name]))
        ensures CanMergeTo(schema, fragments, next, MergedSelections(FieldsWithKey(fields, ResponseKey(f))), depth)
      {
        ShortMerges(schema, fragments, next, SubSelections(f), depth);
      }
    }
  }

  /** `__typename` and one more field. */
  lemma InnerMerges(schema: Schema, fragments: FragmentMap, concrete: string, inner: FieldNode, depth: nat)
    requires ResponseKey(inner) != "__typename"
    requires SubSelections(inner) == [] || SubSelections(inner) == [Field(TYPENAME)]
    ensures CanMergeTo(schema, fragments, concrete, [Field(TYPENAME), Field(inner)], depth)
  {
    TwoFields(schema, fragments, concrete, TYPENAME, inner);
    SingleGroups(TYPENAME, inner);
    if depth > 0 {
      ChildMerges(schema, fragments, concrete, [TYPENAME, inner], TYPENAME, depth - 1);
      ChildMerges(schema, fragments, concrete, [TYPENAME, inner], inner, depth - 1);
    }
  }

  /** The fields a server executes for the narrowing selections: `f` twice. */
  lemma NarrowingFields(schema: Schema, fragments: FragmentMap, object_: string, interface: string, f: string,
                        inner: FieldNode)
    requires IsInterface(schema, interface) && Implements(schema, object_, interface)
    ensures ResponseFields(schema, fragments, object_, Narrowing(interface, f, inner))
            == [Selecting(f, TYPENAME), Selecting(f, inner)]
  {
    var first, second := Selecting(f, TYPENAME), Selecting(f, inner);
    var selections := Narrowing(interface, f, inner);
    assert selections[1..] == [Field(second)];
    OneField(schema, fragments, object_, first);
    OneField(schema, fragments, object_, second);
    var tail := CollectResponse(schema, fragments, object_, [Field(first)], {});
    assert CollectResponseHead(schema, fragments, object_, Field(first), {}) == ([first], {});
    assert [Field(first)][1..] == [];
    assert CollectResponse(schema, fragments, object_, [], {}) == ([], {});
    assert tail.1 == {};
    assert CollectResponse(schema, fragments, object_, selections, {}).0 == [first] + [second];
  }

  lemma NarrowingMerges(schema: Schema, fragments: FragmentMap, object_: string, interface: string, f: string,
                        inner: FieldNode)
    requires IsInterface(schema, interface) && Implements(schema, object_, interface)
    requires ResponseKey(inner) != "__typename"
    requires SubSelections(inner) == [] || SubSelections(inner) == [Field(TYPENAME)]
    ensures CanMerge(schema, fragments, object_, Narrowing(interface, f, inner))
  {
    var first, second := Selecting(f, TYPENAME), Selecting(f, inner);
    NarrowingFields(schema, fragments, object_, interface, f, inner);
    GroupOfTwo(first, second, f);
    MergeOfTwo(first, second);
    assert [first] + [second] == [first, second];
    assert [Field(TYPENAME)] + [Field(inner)] == [Field(TYPENAME), Field(inner)];
    forall depth: nat ensures CanMergeTo(schema, fragments, object_, Narrowing(interface, f, inner), depth) {
      if depth > 0 {
        NarrowedMerge(schema, fragments, object_, [first, second], first, inner, depth - 1);
        NarrowedMerge(schema, fragments, object_, [first, second], second, inner, depth - 1);
      }
    }
  }

  lemma NarrowedMerge(schema: Schema, fragments: FragmentMap, object_: string, fields: seq<FieldNode>, f: FieldNode,
                      inner: FieldNode, depth: nat)
    requires MergedSelections(FieldsWithKey(fields, ResponseKey(f))) == [Field(TYPENAME), Field(inner)]
    requires ResponseKey(inner) != "__typename"
    requires SubSelections(inner) == [] || SubSelections(inner) == [Field(TYPENAME)]
    ensures ChildrenCanMerge(schema, fragments, object_, fields, f, depth)
  {
    if HasFields(schema, object_) && f.name in FieldsOf(schema, object_) {
      forall next | next in PossibleObjectTypes(schema, NamedTypeOf(FieldsOf(schema, object_)[f.name]))
        ensures CanMergeTo(schema, fragments, next, MergedSelections(FieldsWithKey(fields, ResponseKey(f))), depth)
      {
        InnerMerges(schema, fragments, next, inner, depth);
      }
    }
  }

  lemma NarrowingIsValid(schema: Schema, object_: string, interface: string, f: string, b: string)
    requires ValidSchema(schema) && Narrows(schema, object_, interface, f, b)
    ensures IsComposite(schema, NamedTypeOf(FieldsOf(schema, interface)[f]))
    ensures var narrow := NamedTypeOf(FieldsOf(schema, object_)[f]);
            ValidSelections(schema, map[], object_, Narrowing(interface, f, Leafward(schema, narrow, b)))
  {
    var wide, narrow := NamedTypeOf(FieldsOf(schema, interface)[f]), NamedTypeOf(FieldsOf(schema, object_)[f]);
    CovariantNamedType(schema, FieldsOf(schema, object_)[f], FieldsOf(schema, interface)[f]);
    var inner := Leafward(schema, narrow, b);
    TypenameIsValid(schema, wide);
    InnerIsValid(schema, narrow, b);
    var first, second := Selecting(f, TYPENAME), Selecting(f, inner);
    assert ValidSelection(schema, map[], interface, Field(first));
    assert ValidSelections(schema, map[], interface, [Field(first)]);
    assert ValidSelection(schema, map[], object_, InlineFragment(Some(interface), [Field(first)]));
    assert ValidSelection(schema, map[], object_, Field(second));
  }

  lemma TypenameIsValid(schema: Schema, scope: string)
    ensures ValidSelections(schema, map[], scope, [Field(TYPENAME)])
  {
    assert ValidSelection(schema, map[], scope, Field(TYPENAME));
  }

  lemma InnerIsValid(schema: Schema, narrow: string, b: string)
    requires b != "__typename" && IsDeclared(schema, narrow, b)
    ensures ValidSelections(schema, map[], narrow, [Field(Leafward(schema, narrow, b))])
  {
    TypenameIsValid(schema, FieldTypeName(schema, narrow, b));
    assert ValidSelection(schema, map[], narrow, Field(Leafward(schema, narrow, b)));
  }

  // ----- what the compiler makes of it -----

  lemma CollectOne(schema: Schema, fragments: FragmentMap, concrete: string, scope: string, f: FieldNode)
    requires !IsCacheOnly(f)
    ensures CollectFields(schema, fragments, concrete, scope, [Field(f)], {}) == Ok([FieldContext(f, scope, {})])
  {
    var selections := [Field(f)];
    assert selections[1..] == [];
    assert CollectSelection(schema, fragments, concrete, scope, selections[0], {}) == Ok([FieldContext(f, scope, {})]);
    assert CollectFields(schema, fragments, concrete, scope, selections[1..], {}) == Ok([]);
    assert [FieldContext(f, scope, {})] + [] == [FieldContext(f, scope, {})];
  }

  lemma ContextsOfOne(schema: Schema, fragments: FragmentMap, concrete: string, parent: string, x: SelectionSetContext,
                      c: seq<FieldContext>)
    requires CollectFields(schema, fragments, concrete, parent, x.selectionSet, x.active) == Ok(c)
    ensures CollectContexts(schema, fragments, concrete, parent, [x]) == Ok(c)
  {
    var contexts := [x];
    assert contexts[1..] == [];
    AppendNothing(c);
  }

  lemma ContextsOfTwo(schema: Schema, fragments: FragmentMap, concrete: string, parent: string, x: SelectionSetContext,
                      y: SelectionSetContext, c: seq<FieldContext>, d: seq<FieldContext>)
    requires CollectFields(schema, fragments, concrete, parent, x.selectionSet, x.active) == Ok(c)
    requires CollectFields(schema, fragments, concrete, parent, y.selectionSet, y.active) == Ok(d)
    ensures CollectContexts(schema, fragments, concrete, parent, [x, y]) == Ok(c + d)
  {
    var contexts := [x, y];
    assert contexts[1..] == [y];
    ContextsOfOne(schema, fragments, concrete, parent, y, d);
  }

  lemma CollectNarrowing(schema: Schema, fragments: FragmentMap, object_: string, interface: string, f: string,
                         inner: FieldNode)
    requires IsInterface(schema, interface) && Implements(schema, object_, interface)
    ensures var first, second := Selecting(f, TYPENAME),
                                 Selecting(f, inner);
            CollectContexts(schema, fragments, object_, object_,
                            [SelectionSetContext(Narrowing(interface, f, inner), {})])
            == Ok([FieldContext(first, interface, {}), FieldContext(second, object_, {})])
  {
    var first, second := Selecting(f, TYPENAME), Selecting(f, inner);
    var selections := Narrowing(interface, f, inner);
    CollectOne(schema, fragments, object_, interface, first);
    CollectOne(schema, fragments, object_, object_, second);
    assert selections[1..] == [Field(second)];
    var c, d := FieldContext(first, interface, {}), FieldContext(second, object_, {});
    assert CollectSelection(schema, fragments, object_, object_, selections[0], {}) == Ok([c]);
    assert [c] + [d] == [c, d];
    assert CollectFields(schema, fragments, object_, object_, selections, {}) == Ok([c] + [d]);
    ContextsOfOne(schema, fragments, object_, object_, SelectionSetContext(selections, {}), [c, d]);
  }

  lemma TwoContexts(c: FieldContext, d: FieldContext)
    ensures WithKey([c, d], ResponseKey(d.field))
            == if ResponseKey(c.field) == ResponseKey(d.field) then [c, d] else [d]
    ensures ResponseKey(d.field) in KeysOf([c, d])
  {
    var contexts, first := [c, d], [c];
    assert contexts[..1] == first && first[..0] == [];
    assert [c] + [d] == [c, d] && [] + [d] == [d] && [] + [c] == [c];
    assert WithKey(first, ResponseKey(d.field)) == if ResponseKey(c.field) == ResponseKey(d.field) then [c] else [];
    KeysOfMembers(contexts);
    assert contexts[1] in contexts;
  }

  lemma TwoNested(c: FieldContext, d: FieldContext)
    requires c.field.selectionSet.Present? && d.field.selectionSet.Present?
    ensures NestedContexts([c, d]) == [SelectionSetContext(SubSelections(c.field), c.active),
                                       SelectionSetContext(SubSelections(d.field), d.active)]
  {
    var group, rest := [c, d], [d];
    assert group[1..] == rest && rest[1..] == [];
    AppendNothing([SelectionSetContext(SubSelections(d.field), d.active)]);
    assert NestedContexts(rest) == [SelectionSetContext(SubSelections(d.field), d.active)];
  }

  lemma InnerRefused(schema: Schema, fragments: FragmentMap, wide: string, concrete: string, inner: FieldNode)
    requires concrete in PossibleObjectTypes(schema, wide) && !IsDeclared(schema, wide, inner.name)
    requires ResponseKey(inner) != "__typename" && !IsCacheOnly(inner)
    ensures var nested := [SelectionSetContext([Field(TYPENAME)], {}), SelectionSetContext([Field(inner)], {})];
            !LevelRenders(schema, fragments, Level(wide, nested))
  {
    var nested := [SelectionSetContext([Field(TYPENAME)], {}), SelectionSetContext([Field(inner)], {})];
    var c, d := FieldContext(TYPENAME, wide, {}), FieldContext(inner, wide, {});
    CollectOne(schema, fragments, concrete, wide, TYPENAME);
    CollectOne(schema, fragments, concrete, wide, inner);
    ContextsOfTwo(schema, fragments, concrete, wide, nested[0], nested[1], [c], [d]);
    assert [c] + [d] == [c, d];
    TwoContexts(c, d);
    assert !LeaderDeclared(schema, WithKey([c, d], ResponseKey(inner)));
    assert !ObjectRenders(schema, fragments, Level(wide, nested), concrete);
  }

  /**
   * Wherever an object type narrows an interface's field to a type with a further field, there is a valid selection
   * on it that is refused: the further field is looked up on the interface's type, because that came first.
   */
  lemma NarrowedFieldIsRefused(schema: Schema, object_: string, interface: string, f: string, b: string)
    requires ValidSchema(schema) && Narrows(schema, object_, interface, f, b)
    ensures var inner := Leafward(schema, NamedTypeOf(FieldsOf(schema, object_)[f]), b);
            var selections := Narrowing(interface, f, inner);
            && ValidSelections(schema, map[], object_, selections)
            && CanMerge(schema, map[], object_, selections)
            && RenderSelectionSet(schema, map[], object_, [SelectionSetContext(selections, {})]).Err?
  {
    var wide, narrow := NamedTypeOf(FieldsOf(schema, interface)[f]), NamedTypeOf(FieldsOf(schema, object_)[f]);
    var inner := Leafward(schema, narrow, b);
    var selections := Narrowing(interface, f, inner);
    NarrowingIsValid(schema, object_, interface, f, b);
    NarrowingMerges(schema, map[], object_, interface, f, inner);
    var level := Level(object_, [SelectionSetContext(selections, {})]);
    NarrowingInner(schema, object_, interface, f, inner);
    CovariantNamedType(schema, FieldsOf(schema, object_)[f], FieldsOf(schema, interface)[f]);
    InnerRefused(schema, map[], wide, PossibleObjectTypes(schema, narrow)[0], inner);
    LevelOk(schema, map[], Inner(schema, map[], level, Move(object_, f)).value);
    LevelOk(schema, map[], level);
    assert !InnerRenders(schema, map[], level, Move(object_, f));
  }

  lemma NarrowingInner(schema: Schema, object_: string, interface: string, f: string, inner: FieldNode)
    requires IsObject(schema, object_) && f != "__typename"
    requires IsInterface(schema, interface) && Implements(schema, object_, interface)
    requires f in FieldsOf(schema, interface) && IsComposite(schema, NamedTypeOf(FieldsOf(schema, interface)[f]))
    ensures var level := Level(object_, [SelectionSetContext(Narrowing(interface, f, inner), {})]);
            Inner(schema, map[], level, Move(object_, f))
            == Some(Level(NamedTypeOf(FieldsOf(schema, interface)[f]),
                          [SelectionSetContext([Field(TYPENAME)], {}), SelectionSetContext([Field(inner)], {})]))
  {
    var c, d := FieldContext(Selecting(f, TYPENAME), interface, {}), FieldContext(Selecting(f, inner), object_, {});
    CollectNarrowing(schema, map[], object_, interface, f, inner);
    InnerOf(schema, map[], Level(object_, [SelectionSetContext(Narrowing(interface, f, inner), {})]), Move(object_, f),
            [c, d]);
    TwoContexts(c, d);
    BeneathTwo(schema, c, d);
  }

  lemma InnerOf(schema: Schema, fragments: FragmentMap, level: Level, move: Move, collected: seq<FieldContext>)
    requires move.concrete in PossibleObjectTypes(schema, level.parent)
    requires CollectContexts(schema, fragments, move.concrete, level.parent, level.contexts) == Ok(collected)
    ensures Inner(schema, fragments, level, move) == Beneath(schema, WithKey(collected, move.key))
  {
  }

  lemma BeneathTwo(schema: Schema, c: FieldContext, d: FieldContext)
    requires c.field.name != "__typename" && IsDeclared(schema, c.scope, c.field.name)
    requires IsComposite(schema, FieldTypeName(schema, c.scope, c.field.name))
    requires c.field.selectionSet.Present? && d.field.selectionSet.Present?
    ensures Beneath(schema, [c, d])
            == Some(Level(FieldTypeName(schema, c.scope, c.field.name),
                          [SelectionSetContext(SubSelections(c.field), c.active),
                           SelectionSetContext(SubSelections(d.field), d.active)]))
  {
    TwoNested(c, d);
  }
}
