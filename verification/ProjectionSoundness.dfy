/** Every response has the rendered type; without fragment cycles, the type misses nothing visible. */
module ProjectionSoundness {
  import opened Outcomes
  import opened Sequences
  import opened GraphqlTypes
  import opened ProjectionDocument
  import opened ProjectionRender
  import opened ResponseSemantics
  import opened FieldReachability
  import opened CacheOnlySearch

  /** The compiler looks at no selection the server does not execute. */
  ghost predicate Covers(contexts: seq<SelectionSetContext>, merged: seq<Selection>) {
    forall c, s :: c in contexts && s in c.selectionSet ==> s in merged
  }

  /** No selection carries `@cacheOnly`. */
  ghost predicate FullyVisible(fragments: FragmentMap, selections: seq<Selection>) {
    && !HasDirectCacheOnly(selections)
    && forall n :: n in fragments ==> !HasDirectCacheOnly(fragments[n].selectionSet)
  }

  /** The compiler looks at every selection the server executes, and no active fragment cuts it short. */
  ghost predicate Exhausts(fragments: FragmentMap, contexts: seq<SelectionSetContext>, merged: seq<Selection>) {
    && NoFragmentCycles(fragments)
    && FullyVisible(fragments, merged)
    && (forall s :: s in merged ==> exists c :: c in contexts && s in c.selectionSet)
    && (forall c :: c in contexts ==> WalksAvoid(c.selectionSet, fragments, c.active))
  }

  /** A rendered projection describes `v`; an absent one only promises that nothing is visible. */
  ghost predicate ProjectionFits(schema: Schema, v: Value, projection: Option<Ts>, exact: bool) {
    match projection
    case Some(type_) => Fits(schema, v, type_, exact)
    case None => exact ==> Hollow(v)
  }

  // ----- taking rendered projections apart -----

  lemma {:induction false} ContextsCollected(schema: Schema, fragments: FragmentMap, concrete: string, parent: string,
                                             contexts: seq<SelectionSetContext>)
    requires CollectContexts(schema, fragments, concrete, parent, contexts).Ok?
    ensures forall x :: x in contexts ==>
              CollectFields(schema, fragments, concrete, parent, x.selectionSet, x.active).Ok?
    ensures forall c :: c in CollectContexts(schema, fragments, concrete, parent, contexts).value <==>
              exists x :: x in contexts
                          && c in CollectFields(schema, fragments, concrete, parent, x.selectionSet, x.active).value
  {
    if contexts != [] {
      var head, rest := contexts[0], contexts[1..];
      ContextsCollected(schema, fragments, concrete, parent, rest);
      assert forall x :: x in contexts <==> x == head || x in rest;
    }
  }

  lemma {:induction false} PropertiesMatchKeys(schema: Schema, fragments: FragmentMap, concrete: string,
                                               contexts: seq<FieldContext>, keys: seq<string>)
    requires RenderProperties(schema, fragments, concrete, contexts, keys).Ok?
    ensures var properties := RenderProperties(schema, fragments, concrete, contexts, keys).value;
            && (forall p :: p in properties ==>
                  p.key in keys
                  && RenderProperty(schema, fragments, concrete, WithKey(contexts, p.key)) == Ok(Some(p.type_)))
            && (forall k :: k in keys ==>
                  RenderProperty(schema, fragments, concrete, WithKey(contexts, k)) == Ok(None)
                  || exists p :: p in properties && p.key == k)
  {
    if keys != [] {
      var last := |keys| - 1;
      PropertiesMatchKeys(schema, fragments, concrete, contexts, keys[..last]);
      assert forall k :: k in keys <==> k == keys[last] || k in keys[..last];
      var before := RenderProperties(schema, fragments, concrete, contexts, keys[..last]).value;
      var properties := RenderProperties(schema, fragments, concrete, contexts, keys).value;
      assert forall p :: p in before ==> p in properties;
      var rendered := RenderProperty(schema, fragments, concrete, WithKey(contexts, keys[last])).value;
      if rendered.Some? {
        assert Property(keys[last], rendered.value) in properties;
      }
    }
  }

  lemma {:induction false} ProjectionOf(schema: Schema, fragments: FragmentMap, parent: string,
                                        concretes: seq<string>, contexts: seq<SelectionSetContext>, concrete: string)
    requires concrete in concretes
    requires RenderProjections(schema, fragments, parent, concretes, contexts).Ok?
    ensures RenderSelectionSetForObject(schema, fragments, parent, concrete, contexts).Ok?
    ensures RenderSelectionSetForObject(schema, fragments, parent, concrete, contexts).value
            in RenderProjections(schema, fragments, parent, concretes, contexts).value
  {
    var last := |concretes| - 1;
    if concretes[last] != concrete {
      ProjectionOf(schema, fragments, parent, concretes[..last], contexts, concrete);
    }
  }

  // ----- visibility below a field -----

  lemma {:induction false} DirectCacheOnlyOrigin(selections: seq<Selection>)
    ensures HasDirectCacheOnly(selections) <==> exists s :: s in selections && HeadHasDirectCacheOnly(s)
  {
    if selections != [] {
      DirectCacheOnlyOrigin(selections[1..]);
      if HeadHasDirectCacheOnly(selections[0]) {
        assert selections[0] in selections;
      } else if HasDirectCacheOnly(selections[1..]) {
        var s :| s in selections[1..] && HeadHasDirectCacheOnly(s);
        assert s in selections;
      } else {
        assert forall s :: s in selections ==> s == selections[0] || s in selections[1..];
      }
    }
  }

  lemma {:induction false} FlattenedIsVisible(schema: Schema, concrete: string, selections: seq<Selection>,
      f: FieldNode)
    requires !HasDirectCacheOnly(selections) && Field(f) in Flatten(schema, concrete, selections)
    ensures !IsCacheOnly(f) && !HasDirectCacheOnly(SubSelections(f))
  {
    if Field(f) in FlattenHead(schema, concrete, selections[0]) {
      match selections[0]
      case InlineFragment(_, sub) => FlattenedIsVisible(schema, concrete, sub, f);
      case _ =>
    } else {
      FlattenedIsVisible(schema, concrete, selections[1..], f);
    }
  }

  lemma {:induction false} ReachedIsVisible(schema: Schema, fragments: FragmentMap, concrete: string,
                                            selections: seq<Selection>, f: FieldNode, path: seq<string>)
    requires FullyVisible(fragments, selections)
    requires Reaches(schema, fragments, concrete, selections, f, path)
    ensures !IsCacheOnly(f) && FullyVisible(fragments, SubSelections(f))
    decreases |path|
  {
    if path == [] {
      FlattenedIsVisible(schema, concrete, selections, f);
    } else {
      ReachedIsVisible(schema, fragments, concrete, fragments[path[0]].selectionSet, f, path[1..]);
    }
  }

  // ----- one level: the compiler's fields and the server's fields -----

  lemma CollectedIsAnswered(schema: Schema, fragments: FragmentMap, parent: string, concrete: string,
                            contexts: seq<SelectionSetContext>, merged: seq<Selection>, c: FieldContext)
    requires ValidSchema(schema) && concrete in PossibleObjectTypes(schema, parent)
    requires Covers(contexts, merged)
    requires CollectContexts(schema, fragments, concrete, parent, contexts).Ok?
    requires c in CollectContexts(schema, fragments, concrete, parent, contexts).value
    ensures concrete in PossibleObjectTypes(schema, c.scope)
    ensures c.field in ResponseFields(schema, fragments, concrete, merged)
  {
    ContextsCollected(schema, fragments, concrete, parent, contexts);
    var x :| x in contexts && c in CollectFields(schema, fragments, concrete, parent, x.selectionSet, x.active).value;
    var path := CollectedIsReached(schema, fragments, concrete, parent, x.selectionSet, x.active, c);
    var atom := if path == [] then Field(c.field) else FragmentSpread(path[0]);
    FlattenMonotone(schema, concrete, x.selectionSet, merged, atom);
    ReachedIsAnswered(schema, fragments, concrete, merged, c.field, path);
  }

  lemma AnsweredIsCollected(schema: Schema, fragments: FragmentMap, parent: string, concrete: string,
                            contexts: seq<SelectionSetContext>, merged: seq<Selection>, f: FieldNode)
    returns (c: FieldContext)
    requires ValidSchema(schema) && concrete in PossibleObjectTypes(schema, parent)
    requires Exhausts(fragments, contexts, merged)
    requires CollectContexts(schema, fragments, concrete, parent, contexts).Ok?
    requires f in ResponseFields(schema, fragments, concrete, merged)
    ensures c in CollectContexts(schema, fragments, concrete, parent, contexts).value && c.field == f
    ensures FullyVisible(fragments, SubSelections(f))
  {
    var path := AnsweredIsReached(schema, fragments, concrete, merged, {}, f);
    ReachedIsVisible(schema, fragments, concrete, merged, f, path);
    var atom := if path == [] then Field(f) else FragmentSpread(path[0]);
    FlattenOrigin(schema, concrete, merged, atom);
    var s :| s in merged && atom in FlattenHead(schema, concrete, s);
    var x :| x in contexts && s in x.selectionSet;
    FlattenOrigin(schema, concrete, x.selectionSet, atom);
    assert Reaches(schema, fragments, concrete, x.selectionSet, f, path);
    ReachesWalks(schema, fragments, concrete, x.selectionSet, f, path);
    ContextsCollected(schema, fragments, concrete, parent, contexts);
    c := ReachedIsCollected(schema, fragments, concrete, parent, x.selectionSet, x.active, f, path);
  }

  /** The nested contexts of a key relate to the server's merged selections as the outer ones do. */
  lemma NestedCovers(schema: Schema, fragments: FragmentMap, parent: string, concrete: string,
                     contexts: seq<SelectionSetContext>, merged: seq<Selection>, key: string)
    requires ValidSchema(schema) && concrete in PossibleObjectTypes(schema, parent)
    requires Covers(contexts, merged)
    requires CollectContexts(schema, fragments, concrete, parent, contexts).Ok?
    ensures var group := WithKey(CollectContexts(schema, fragments, concrete, parent, contexts).value, key);
            var answered := FieldsWithKey(ResponseFields(schema, fragments, concrete, merged), key);
            Covers(NestedContexts(group), MergedSelections(answered))
  {
    var collected := CollectContexts(schema, fragments, concrete, parent, contexts).value;
    var group := WithKey(collected, key);
    var answered := FieldsWithKey(ResponseFields(schema, fragments, concrete, merged), key);
    forall n, s | n in NestedContexts(group) && s in n.selectionSet
      ensures s in MergedSelections(answered)
    {
      var c := NestedOrigin(group, n);
      WithKeyMembers(collected, key);
      CollectedIsAnswered(schema, fragments, parent, concrete, contexts, merged, c);
      MergedMember(answered, c.field, s);
    }
  }

  lemma NestedExhausts(schema: Schema, fragments: FragmentMap, parent: string, concrete: string,
                       contexts: seq<SelectionSetContext>, merged: seq<Selection>, key: string)
    requires ValidSchema(schema) && concrete in PossibleObjectTypes(schema, parent)
    requires Exhausts(fragments, contexts, merged)
    requires CollectContexts(schema, fragments, concrete, parent, contexts).Ok?
    ensures var group := WithKey(CollectContexts(schema, fragments, concrete, parent, contexts).value, key);
            var answered := FieldsWithKey(ResponseFields(schema, fragments, concrete, merged), key);
            Exhausts(fragments, NestedContexts(group), MergedSelections(answered))
  {
    var collected := CollectContexts(schema, fragments, concrete, parent, contexts).value;
    var group := WithKey(collected, key);
    var nested := NestedContexts(group);
    var answered := FieldsWithKey(ResponseFields(schema, fragments, concrete, merged), key);
    var below := MergedSelections(answered);
    WithKeyMembers(collected, key);
    forall s | s in below
      ensures !HeadHasDirectCacheOnly(s) && exists n :: n in nested && s in n.selectionSet
    {
      var f := MergedOrigin(answered, s);
      var c := AnsweredIsCollected(schema, fragments, parent, concrete, contexts, merged, f);
      NestedMember(group, c);
      DirectCacheOnlyOrigin(SubSelections(f));
    }
    DirectCacheOnlyOrigin(below);
    forall n | n in nested ensures WalksAvoid(n.selectionSet, fragments, n.active) {
      var c := NestedOrigin(group, n);
      ContextsCollected(schema, fragments, concrete, parent, contexts);
      var x :| x in contexts && c in CollectFields(schema, fragments, concrete, parent, x.selectionSet, x.active).value;
      SnapshotIsFresh(schema, fragments, concrete, parent, x.selectionSet, x.active, c);
    }
  }

  // ----- values -----

  lemma {:induction false} LeafFits(schema: Schema, fragments: FragmentMap, sub: TypeRef, super: TypeRef,
                                    selections: seq<Selection>, v: Value, exact: bool)
    requires ValidSchema(schema) && IsCovariant(schema, sub, super)
    requires !IsComposite(schema, NamedTypeOf(super)) && LeafType(schema, NamedTypeOf(super)).Ok?
    requires Completes(schema, fragments, sub, selections, v)
    ensures Fits(schema, v, WrapType(super, LeafType(schema, NamedTypeOf(super)).value), exact)
    decreases v
  {
    var leaf := LeafType(schema, NamedTypeOf(super)).value;
    if !v.Null? {
      match (sub.of, super.of)
      case (Named(_), Named(_)) =>
        CovariantNamedType(schema, sub, super);
      case (ListOf(item), ListOf(wider)) =>
        forall x | x in v.items ensures Fits(schema, x, WrapType(wider, leaf), exact) {
          LeafFits(schema, fragments, item, wider, selections, x, exact);
        }
    }
    assert v.Null? || Fits(schema, v, WrapBare(super.of, leaf), exact);
  }

  lemma {:induction false} UnselectedIsHollow(schema: Schema, fragments: FragmentMap, t: TypeRef, v: Value)
    requires IsComposite(schema, NamedTypeOf(t))
    requires Completes(schema, fragments, t, [], v)
    ensures Hollow(v)
    decreases v
  {
    if !v.Null? {
      match t.of
      case Named(name) =>
        var concrete :| concrete in PossibleObjectTypes(schema, name)
                        && ObjectResponse(schema, fragments, concrete, [], v);
        assert ResponseFields(schema, fragments, concrete, []) == [];
      case ListOf(item) =>
        forall x | x in v.items ensures Hollow(x) {
          UnselectedIsHollow(schema, fragments, item, x);
        }
    }
  }

  /** A composite value, through any list and null wrappers, has the wrapped projection's type. */
  lemma {:induction false} CompositeFits(schema: Schema, fragments: FragmentMap, sub: TypeRef, super: TypeRef,
                                         nested: seq<SelectionSetContext>, below: seq<Selection>, v: Value, exact: bool)
    requires ValidSchema(schema) && IsCovariant(schema, sub, super)
    requires IsComposite(schema, NamedTypeOf(super))
    requires Covers(nested, below) && (exact ==> Exhausts(fragments, nested, below))
    requires forall next :: next in PossibleObjectTypes(schema, NamedTypeOf(sub)) ==>
                              CanMerge(schema, fragments, next, below)
    requires RenderSelectionSet(schema, fragments, NamedTypeOf(super), nested).Ok?
    requires Completes(schema, fragments, sub, below, v)
    ensures match RenderSelectionSet(schema, fragments, NamedTypeOf(super), nested).value
            case Some(type_) => Fits(schema, v, WrapType(super, type_), exact)
            case None => exact ==> Hollow(v)
    decreases v, 3
  {
    var rendered := RenderSelectionSet(schema, fragments, NamedTypeOf(super), nested).value;
    CovariantNamedType(schema, sub, super);
    if !v.Null? {
      match sub.of
      case ListOf(item) =>
        forall x | x in v.items
          ensures match rendered
                  case Some(type_) => Fits(schema, x, WrapType(super.of.item, type_), exact)
                  case None => exact ==> Hollow(x)
        {
          CompositeFits(schema, fragments, item, super.of.item, nested, below, x, exact);
        }
      case Named(name) =>
        var next :| next in PossibleObjectTypes(schema, name) && ObjectResponse(schema, fragments, next, below, v);
        JoinedFits(schema, fragments, NamedTypeOf(super), next, nested, below, v, exact);
    }
    if rendered.Some? {
      assert v.Null? || Fits(schema, v, WrapBare(super.of, rendered.value), exact);
    }
  }

  /** A value that fits its own projection fits the join of all of them. */
  lemma BranchFits(schema: Schema, v: Value, projections: seq<Option<Ts>>, own: Option<Ts>, exact: bool)
    requires own in projections && v.Fields?
    requires ProjectionFits(schema, v, own, exact)
    ensures ProjectionFits(schema, v, JoinProjections(projections), exact)
  {
    var branch := OrEmpty(own);
    assert branch in Branches(projections);
    assert Fits(schema, v, branch, exact);
  }

  /** The object's own branch is one of the union's. */
  lemma {:induction false} JoinedFits(schema: Schema, fragments: FragmentMap, parent: string, concrete: string,
                                      contexts: seq<SelectionSetContext>, merged: seq<Selection>, v: Value, exact: bool)
    requires ValidSchema(schema) && concrete in PossibleObjectTypes(schema, parent)
    requires Covers(contexts, merged) && (exact ==> Exhausts(fragments, contexts, merged))
    requires CanMerge(schema, fragments, concrete, merged)
    requires RenderSelectionSet(schema, fragments, parent, contexts).Ok?
    requires ObjectResponse(schema, fragments, concrete, merged, v)
    ensures ProjectionFits(schema, v, RenderSelectionSet(schema, fragments, parent, contexts).value, exact)
    decreases v, 2
  {
    var concretes := PossibleObjectTypes(schema, parent);
    ProjectionOf(schema, fragments, parent, concretes, contexts, concrete);
    var projections := RenderProjections(schema, fragments, parent, concretes, contexts).value;
    var own := RenderSelectionSetForObject(schema, fragments, parent, concrete, contexts).value;
    ObjectFits(schema, fragments, parent, concrete, contexts, merged, v, exact);
    BranchFits(schema, v, projections, own, exact);
  }

  lemma {:induction false} ObjectFits(schema: Schema, fragments: FragmentMap, parent: string, concrete: string,
                                      contexts: seq<SelectionSetContext>, merged: seq<Selection>, v: Value, exact: bool)
    requires ValidSchema(schema) && concrete in PossibleObjectTypes(schema, parent)
    requires Covers(contexts, merged) && (exact ==> Exhausts(fragments, contexts, merged))
    requires CanMerge(schema, fragments, concrete, merged)
    requires RenderSelectionSetForObject(schema, fragments, parent, concrete, contexts).Ok?
    requires ObjectResponse(schema, fragments, concrete, merged, v)
    ensures ProjectionFits(schema, v,
                           RenderSelectionSetForObject(schema, fragments, parent, concrete, contexts).value, exact)
    decreases v, 1
  {
    var collected := CollectContexts(schema, fragments, concrete, parent, contexts).value;
    var keys := KeysOf(collected);
    var properties := RenderProperties(schema, fragments, concrete, collected, keys).value;
    KeysOfMembers(collected);
    PropertiesMatchKeys(schema, fragments, concrete, collected, keys);
    forall p | p in properties
      ensures exists e :: e in v.entries && e.key == p.key && Fits(schema, e.value, p.type_, exact)
    {
      var e := EntryExists(schema, fragments, parent, concrete, contexts, merged, v, p.key);
      EntryFits(schema, fragments, parent, concrete, contexts, merged, v, e, exact);
    }
    if exact {
      forall e | e in v.entries
        ensures (exists p :: p in properties && p.key == e.key) || Hollow(e.value)
      {
        var f := FieldsWithKey(ResponseFields(schema, fragments, concrete, merged), e.key)[0];
        var c := AnsweredIsCollected(schema, fragments, parent, concrete, contexts, merged, f);
        EntryFits(schema, fragments, parent, concrete, contexts, merged, v, e, exact);
      }
    }
  }

  lemma SameKeySameName(schema: Schema, fragments: FragmentMap, concrete: string, merged: seq<Selection>,
                        f: FieldNode, g: FieldNode)
    requires CanMerge(schema, fragments, concrete, merged)
    requires f in ResponseFields(schema, fragments, concrete, merged)
    requires g in ResponseFields(schema, fragments, concrete, merged)
    requires ResponseKey(f) == ResponseKey(g)
    ensures f.name == g.name
  {
    assert CanMergeTo(schema, fragments, concrete, merged, 1);
  }

  /** A rendered key is always answered. */
  lemma EntryExists(schema: Schema, fragments: FragmentMap, parent: string, concrete: string,
                    contexts: seq<SelectionSetContext>, merged: seq<Selection>, v: Value, key: string)
    returns (e: Entry)
    requires ValidSchema(schema) && concrete in PossibleObjectTypes(schema, parent)
    requires Covers(contexts, merged) && CanMerge(schema, fragments, concrete, merged)
    requires CollectContexts(schema, fragments, concrete, parent, contexts).Ok?
    requires key in KeysOf(CollectContexts(schema, fragments, concrete, parent, contexts).value)
    requires RenderProperty(schema, fragments, concrete,
                            WithKey(CollectContexts(schema, fragments, concrete, parent, contexts).value, key)).Ok?
    requires ObjectResponse(schema, fragments, concrete, merged, v)
    ensures e in v.entries && e.key == key
  {
    WithKeyMembers(CollectContexts(schema, fragments, concrete, parent, contexts).value, key);
    var first := WithKey(CollectContexts(schema, fragments, concrete, parent, contexts).value, key)[0];
    CollectedIsAnswered(schema, fragments, parent, concrete, contexts, merged, first);
    var answered := FieldsWithKey(ResponseFields(schema, fragments, concrete, merged), key);
    SameKeySameName(schema, fragments, concrete, merged, first.field, answered[0]);
    if first.field.name != "__typename" {
      ScopeFieldOnConcrete(schema, first.scope, concrete, first.field.name);
    }
    e :| e in v.entries && e.key == key;
  }

  lemma {:induction false} EntryFits(schema: Schema, fragments: FragmentMap, parent: string, concrete: string,
                                     contexts: seq<SelectionSetContext>, merged: seq<Selection>,
                                     v: Value, e: Entry, exact: bool)
    requires ValidSchema(schema) && concrete in PossibleObjectTypes(schema, parent)
    requires Covers(contexts, merged) && (exact ==> Exhausts(fragments, contexts, merged))
    requires CanMerge(schema, fragments, concrete, merged)
    requires CollectContexts(schema, fragments, concrete, parent, contexts).Ok?
    requires e.key in KeysOf(CollectContexts(schema, fragments, concrete, parent, contexts).value)
    requires RenderProperty(schema, fragments, concrete,
                            WithKey(CollectContexts(schema, fragments, concrete, parent, contexts).value, e.key)).Ok?
    requires ObjectResponse(schema, fragments, concrete, merged, v) && e in v.entries
    ensures var group := WithKey(CollectContexts(schema, fragments, concrete, parent, contexts).value, e.key);
            ProjectionFits(schema, e.value, RenderProperty(schema, fragments, concrete, group).value, exact)
    decreases v, 0
  {
    var collected := CollectContexts(schema, fragments, concrete, parent, contexts).value;
    var group := WithKey(collected, e.key);
    WithKeyMembers(collected, e.key);
    var answered := FieldsWithKey(ResponseFields(schema, fragments, concrete, merged), e.key);
    CollectedIsAnswered(schema, fragments, parent, concrete, contexts, merged, group[0]);
    SameKeySameName(schema, fragments, concrete, merged, group[0].field, answered[0]);
    var below := MergedSelections(answered);
    NestedCovers(schema, fragments, parent, concrete, contexts, merged, e.key);
    if exact {
      NestedExhausts(schema, fragments, parent, concrete, contexts, merged, e.key);
    }
    if answered[0].name != "__typename" {
      BelowCanMerge(schema, fragments, concrete, merged, answered[0]);
    }
    GroupFits(schema, fragments, concrete, group, answered[0].name, below, e.value, exact);
  }

  /** One response key, once its group and its merged selections are known to correspond. */
  lemma {:induction false} GroupFits(schema: Schema, fragments: FragmentMap, concrete: string, group: seq<FieldContext>,
                                     name: string, below: seq<Selection>, v: Value, exact: bool)
    requires ValidSchema(schema) && group != [] && group[0].field.name == name
    requires concrete in PossibleObjectTypes(schema, group[0].scope)
    requires Covers(NestedContexts(group), below) && (exact ==> Exhausts(fragments, NestedContexts(group), below))
    requires RenderProperty(schema, fragments, concrete, group).Ok?
    requires if name == "__typename" then v == Text(concrete)
             else
               && HasFields(schema, concrete) && name in FieldsOf(schema, concrete)
               && Completes(schema, fragments, FieldsOf(schema, concrete)[name], below, v)
               && (forall next :: next in PossibleObjectTypes(schema, NamedTypeOf(FieldsOf(schema, concrete)[name])) ==>
                                    CanMerge(schema, fragments, next, below))
    ensures ProjectionFits(schema, v, RenderProperty(schema, fragments, concrete, group).value, exact)
    decreases v, 5
  {
    if name != "__typename" {
      var scope := group[0].scope;
      ScopeFieldOnConcrete(schema, scope, concrete, name);
      var sub := FieldsOf(schema, concrete)[name];
      var super := FieldsOf(schema, scope)[name];
      if IsComposite(schema, NamedTypeOf(super)) {
        NestedFits(schema, fragments, sub, super, NestedContexts(group), below, v, exact);
      } else {
        LeafFits(schema, fragments, sub, super, below, v, exact);
      }
    }
  }

  lemma {:induction false} NestedFits(schema: Schema, fragments: FragmentMap, sub: TypeRef, super: TypeRef,
                                      nested: seq<SelectionSetContext>, below: seq<Selection>, v: Value, exact: bool)
    requires ValidSchema(schema) && IsCovariant(schema, sub, super)
    requires IsComposite(schema, NamedTypeOf(super))
    requires Covers(nested, below) && (exact ==> Exhausts(fragments, nested, below))
    requires forall next :: next in PossibleObjectTypes(schema, NamedTypeOf(sub)) ==>
                              CanMerge(schema, fragments, next, below)
    requires nested != [] ==> RenderSelectionSet(schema, fragments, NamedTypeOf(super), nested).Ok?
    requires Completes(schema, fragments, sub, below, v)
    ensures nested == [] && exact ==> Hollow(v)
    ensures nested != [] ==>
              match RenderSelectionSet(schema, fragments, NamedTypeOf(super), nested).value
              case Some(type_) => Fits(schema, v, WrapType(super, type_), exact)
              case None => exact ==> Hollow(v)
    decreases v, 4
  {
    if nested != [] {
      CompositeFits(schema, fragments, sub, super, nested, below, v, exact);
    } else if exact {
      if below != [] {
        HasMember(below);
        assert false;
      }
      CovariantNamedType(schema, sub, super);
      UnselectedIsHollow(schema, fragments, sub, v);
    }
  }

  lemma BelowCanMerge(schema: Schema, fragments: FragmentMap, concrete: string, merged: seq<Selection>, f: FieldNode)
    requires CanMerge(schema, fragments, concrete, merged)
    requires f in ResponseFields(schema, fragments, concrete, merged)
    requires HasFields(schema, concrete) && f.name in FieldsOf(schema, concrete)
    ensures var fields := ResponseFields(schema, fragments, concrete, merged);
            var below := MergedSelections(FieldsWithKey(fields, ResponseKey(f)));
            forall next :: next in PossibleObjectTypes(schema, NamedTypeOf(FieldsOf(schema, concrete)[f.name])) ==>
                             CanMerge(schema, fragments, next, below)
  {
    var below := MergedSelections(FieldsWithKey(ResponseFields(schema, fragments, concrete, merged), ResponseKey(f)));
    forall next | next in PossibleObjectTypes(schema, NamedTypeOf(FieldsOf(schema, concrete)[f.name]))
      ensures CanMerge(schema, fragments, next, below)
    {
      forall depth: nat ensures CanMergeTo(schema, fragments, next, below, depth) {
        assert CanMergeTo(schema, fragments, concrete, merged, depth + 1);
        BelowCanMergeTo(schema, fragments, concrete, merged, f, next, depth);
      }
    }
  }

  lemma BelowCanMergeTo(schema: Schema, fragments: FragmentMap, concrete: string, merged: seq<Selection>,
                        f: FieldNode, next: string, depth: nat)
    requires CanMergeTo(schema, fragments, concrete, merged, depth + 1)
    requires f in ResponseFields(schema, fragments, concrete, merged)
    requires HasFields(schema, concrete) && f.name in FieldsOf(schema, concrete)
    requires next in PossibleObjectTypes(schema, NamedTypeOf(FieldsOf(schema, concrete)[f.name]))
    ensures CanMergeTo(schema, fragments, next,
                       MergedSelections(FieldsWithKey(ResponseFields(schema, fragments, concrete, merged),
                                                      ResponseKey(f))),
                       depth)
  {
    assert ChildrenCanMerge(schema, fragments, concrete, ResponseFields(schema, fragments, concrete, merged), f, depth);
  }
}
