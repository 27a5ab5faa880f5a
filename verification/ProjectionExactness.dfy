/** What a rendered type admits, and nothing else: null where the schema allows it, and the declared leaf values. */
module ProjectionExactness {
  import opened Outcomes
  import opened GraphqlTypes
  import opened ProjectionDocument
  import opened ProjectionRender
  import opened ResponseSemantics
  import opened ProjectionSoundness
  import opened ProjectionPlugin

  /** A scalar the compiler knows nothing of; its type is `unknown`, which every value has. */
  predicate IsCustomScalar(schema: Schema, name: string) {
    && name in schema.types && schema.types[name].Scalar?
    && name != "ID" && name != "String" && name != "Int" && name != "Float" && name != "Boolean"
  }

  /** Values of a leaf type, as the client sees them. */
  ghost predicate AdmitsLeaf(schema: Schema, name: string, v: Value) {
    IsCustomScalar(schema, name) || LeafValue(schema, name, v)
  }

  /** An object of one of the type's object types, with the record rendered for it. */
  ghost predicate AdmitsObject(schema: Schema, fragments: FragmentMap, name: string,
                               contexts: seq<SelectionSetContext>, v: Value, exact: bool)
  {
    v.Fields? && exists concrete :: concrete in PossibleObjectTypes(schema, name)
                                    && AdmitsConcrete(schema, fragments, name, concrete, contexts, v, exact)
  }

  ghost predicate AdmitsConcrete(schema: Schema, fragments: FragmentMap, name: string, concrete: string,
                                 contexts: seq<SelectionSetContext>, v: Value, exact: bool)
  {
    var own := RenderSelectionSetForObject(schema, fragments, name, concrete, contexts);
    own.Ok? && ProjectionFits(schema, v, own.value, exact)
  }

  ghost predicate AdmitsNamed(schema: Schema, fragments: FragmentMap, name: string,
                              nested: seq<SelectionSetContext>, v: Value, exact: bool)
  {
    if IsComposite(schema, name) then AdmitsObject(schema, fragments, name, nested, v, exact)
    else AdmitsLeaf(schema, name, v)
  }

  /**
   * The values of a field of type `t`, through list and null wrappers: null exactly where `t` is nullable, lists
   * exactly where it is a list, and otherwise what its named type admits.
   */
  ghost predicate Admits(schema: Schema, fragments: FragmentMap, t: TypeRef,
                         nested: seq<SelectionSetContext>, v: Value, exact: bool)
    decreases t
  {
    (t.Nullable? && v.Null?)
    || match t.of
       case ListOf(item) => v.Items? && forall x :: x in v.items ==> Admits(schema, fragments, item, nested, x, exact)
       case Named(name) => AdmitsNamed(schema, fragments, name, nested, v, exact)
  }

  lemma OrNullUnfolds(schema: Schema, t: TypeRef, named: Ts, v: Value, exact: bool)
    ensures Fits(schema, v, WrapType(t, named), exact) <==>
            (t.Nullable? && v.Null?) || Fits(schema, v, WrapBare(t.of, named), exact)
  {
  }

  lemma ArrayUnfolds(schema: Schema, item: Ts, v: Value, exact: bool)
    ensures Fits(schema, v, ArrayOf(item), exact) <==>
            v.Items? && forall x :: x in v.items ==> Fits(schema, x, item, exact)
  {
  }

  /** `named` has exactly the values of the type called `name`. */
  ghost predicate IsExactFor(schema: Schema, fragments: FragmentMap, named: Ts, name: string,
                             nested: seq<SelectionSetContext>, exact: bool)
  {
    forall v :: Fits(schema, v, named, exact) <==> AdmitsNamed(schema, fragments, name, nested, v, exact)
  }

  lemma ItemsUnfold(schema: Schema, fragments: FragmentMap, t: TypeRef, nested: seq<SelectionSetContext>, v: Value,
                    exact: bool)
    requires t.of.ListOf?
    ensures Admits(schema, fragments, t, nested, v, exact) <==>
            (t.Nullable? && v.Null?)
            || (v.Items? && forall x :: x in v.items ==> Admits(schema, fragments, t.of.item, nested, x, exact))
  {
  }

  /** Wrapping a type that describes the named type describes the field's type. */
  lemma {:induction false} WrapIsExact(schema: Schema, fragments: FragmentMap, t: TypeRef, named: Ts,
                                       nested: seq<SelectionSetContext>, v: Value, exact: bool)
    requires IsExactFor(schema, fragments, named, NamedTypeOf(t), nested, exact)
    ensures Fits(schema, v, WrapType(t, named), exact) <==> Admits(schema, fragments, t, nested, v, exact)
    decreases t
  {
    OrNullUnfolds(schema, t, named, v, exact);
    match t.of
    case Named(name) =>
    case ListOf(item) =>
      ItemsUnfold(schema, fragments, t, nested, v, exact);
      ArrayUnfolds(schema, WrapType(item, named), v, exact);
      if v.Items? {
        forall x | x in v.items
          ensures Fits(schema, x, WrapType(item, named), exact) <==>
                  Admits(schema, fragments, item, nested, x, exact)
        {
          WrapIsExact(schema, fragments, item, named, nested, x, exact);
        }
      }
  }

  lemma LeafIsExact(schema: Schema, name: string, v: Value, exact: bool)
    requires LeafType(schema, name).Ok?
    ensures Fits(schema, v, LeafType(schema, name).value, exact) <==> AdmitsLeaf(schema, name, v)
  {
  }

  // ----- unions of records -----

  lemma {:induction false} ProjectionOrigin(schema: Schema, fragments: FragmentMap, parent: string,
                                            concretes: seq<string>, contexts: seq<SelectionSetContext>,
                                            projection: Option<Ts>)
    returns (concrete: string)
    requires RenderProjections(schema, fragments, parent, concretes, contexts).Ok?
    requires projection in RenderProjections(schema, fragments, parent, concretes, contexts).value
    ensures concrete in concretes
    ensures RenderSelectionSetForObject(schema, fragments, parent, concrete, contexts) == Ok(projection)
  {
    var last := |concretes| - 1;
    if RenderSelectionSetForObject(schema, fragments, parent, concretes[last], contexts) == Ok(projection) {
      concrete := concretes[last];
    } else {
      concrete := ProjectionOrigin(schema, fragments, parent, concretes[..last], contexts, projection);
    }
  }

  /** An object has a projection's branch exactly when it has the projection. */
  lemma BranchIsExact(schema: Schema, projection: Option<Ts>, v: Value, exact: bool)
    requires projection.Some? ==> projection.value.Record?
    ensures Fits(schema, v, OrEmpty(projection), exact) <==> v.Fields? && ProjectionFits(schema, v, projection, exact)
  {
  }

  lemma JoinUnfolds(schema: Schema, projections: seq<Option<Ts>>, v: Value, exact: bool)
    requires JoinProjections(projections).Some?
    ensures Fits(schema, v, JoinProjections(projections).value, exact) <==>
            exists b :: b in Branches(projections) && Fits(schema, v, b, exact)
  {
  }

  lemma JoinIsExact(schema: Schema, projections: seq<Option<Ts>>, v: Value, exact: bool)
    requires JoinProjections(projections).Some?
    requires forall p :: p in projections && p.Some? ==> p.value.Record?
    ensures Fits(schema, v, JoinProjections(projections).value, exact) <==>
            v.Fields? && exists p :: p in projections && ProjectionFits(schema, v, p, exact)
  {
    var branches := Branches(projections);
    JoinUnfolds(schema, projections, v, exact);
    if v.Fields? && exists p :: p in projections && ProjectionFits(schema, v, p, exact) {
      var p :| p in projections && ProjectionFits(schema, v, p, exact);
      BranchIsExact(schema, p, v, exact);
      assert OrEmpty(p) in branches;
    }
    if exists b :: b in branches && Fits(schema, v, b, exact) {
      var b :| b in branches && Fits(schema, v, b, exact);
      var p :| p in projections && OrEmpty(p) == b;
      BranchIsExact(schema, p, v, exact);
    }
  }

  /** The union over the possible object types admits exactly the objects some of them admits. */
  lemma UnionIsExact(schema: Schema, fragments: FragmentMap, name: string, contexts: seq<SelectionSetContext>,
                     v: Value, exact: bool)
    requires RenderSelectionSet(schema, fragments, name, contexts).Ok?
    requires RenderSelectionSet(schema, fragments, name, contexts).value.Some?
    ensures Fits(schema, v, RenderSelectionSet(schema, fragments, name, contexts).value.value, exact) <==>
            AdmitsObject(schema, fragments, name, contexts, v, exact)
  {
    var concretes := PossibleObjectTypes(schema, name);
    var projections := RenderProjections(schema, fragments, name, concretes, contexts).value;
    forall p | p in projections
      ensures p.Some? ==> p.value.Record?
      ensures exists c :: c in concretes && RenderSelectionSetForObject(schema, fragments, name, c, contexts) == Ok(p)
    {
      var c := ProjectionOrigin(schema, fragments, name, concretes, contexts, p);
    }
    JoinIsExact(schema, projections, v, exact);
    if exists p :: p in projections && ProjectionFits(schema, v, p, exact) {
      var p :| p in projections && ProjectionFits(schema, v, p, exact);
      var c := ProjectionOrigin(schema, fragments, name, concretes, contexts, p);
      assert AdmitsConcrete(schema, fragments, name, c, contexts, v, exact);
    }
    if c :| c in concretes && AdmitsConcrete(schema, fragments, name, c, contexts, v, exact) {
      ProjectionOf(schema, fragments, name, concretes, contexts, c);
    }
  }

  // ----- properties -----

  /** The type of the field a response key is rendered from: its first occurrence, on the scope it is written in. */
  function FieldType(schema: Schema, group: seq<FieldContext>): TypeRef
    requires group != [] && HasFields(schema, group[0].scope)
    requires group[0].field.name in FieldsOf(schema, group[0].scope)
  {
    FieldsOf(schema, group[0].scope)[group[0].field.name]
  }

  /**
   * A property admits exactly what its field may hold: for `__typename` the type's name, otherwise the values of
   * the field's type in the schema.
   */
  lemma PropertyIsExact(schema: Schema, fragments: FragmentMap, concrete: string, group: seq<FieldContext>,
                        type_: Ts, v: Value, exact: bool)
    requires RenderProperty(schema, fragments, concrete, group) == Ok(Some(type_))
    ensures group != []
    ensures group[0].field.name == "__typename" ==> (Fits(schema, v, type_, exact) <==> v == Text(concrete))
    ensures group[0].field.name != "__typename" ==>
              && HasFields(schema, group[0].scope) && group[0].field.name in FieldsOf(schema, group[0].scope)
              && (Fits(schema, v, type_, exact) <==>
                  Admits(schema, fragments, FieldType(schema, group), NestedContexts(group), v, exact))
  {
    if group[0].field.name != "__typename" {
      var t, nested := FieldType(schema, group), NestedContexts(group);
      var name := NamedTypeOf(t);
      var named := if IsComposite(schema, name) then RenderSelectionSet(schema, fragments, name, nested).value.value
                   else LeafType(schema, name).value;
      forall x ensures Fits(schema, x, named, exact) <==>
          AdmitsNamed(schema, fragments, name, nested, x, exact)
      {
        if IsComposite(schema, name) {
          UnionIsExact(schema, fragments, name, nested, x, exact);
        } else {
          LeafIsExact(schema, name, x, exact);
        }
      }
      WrapIsExact(schema, fragments, t, named, nested, v, exact);
    }
  }

  /** A built-in scalar or an enum, in any wrapping, has the values a server may complete it with, and no others. */
  lemma {:induction false} LeafAdmitsCompletions(schema: Schema, fragments: FragmentMap, t: TypeRef,
      nested: seq<SelectionSetContext>, selections: seq<Selection>, v: Value, exact: bool)
    requires !IsComposite(schema, NamedTypeOf(t)) && !IsCustomScalar(schema, NamedTypeOf(t))
    ensures Admits(schema, fragments, t, nested, v, exact) <==> Completes(schema, fragments, t, selections, v)
    decreases t
  {
    if t.of.ListOf? && v.Items? {
      forall x | x in v.items
        ensures Admits(schema, fragments, t.of.item, nested, x, exact)
                <==> Completes(schema, fragments, t.of.item, selections, x)
      {
        LeafAdmitsCompletions(schema, fragments, t.of.item, nested, selections, x, exact);
      }
    }
  }

  /** Null is admitted where the schema makes the field nullable; a custom scalar's `unknown` cannot exclude it. */
  lemma NullIsAdmittedIff(schema: Schema, fragments: FragmentMap, t: TypeRef, nested: seq<SelectionSetContext>,
                          exact: bool)
    ensures Admits(schema, fragments, t, nested, Null, exact) <==>
            t.Nullable? || (t.of.Named? && IsCustomScalar(schema, t.of.name))
  {
  }

  /** The property rendered for a response key comes from the first field collected under it. */
  lemma PropertyOrigin(schema: Schema, fragments: FragmentMap, parent: string, concrete: string,
                       contexts: seq<SelectionSetContext>, properties: seq<Property>, p: Property)
    returns (group: seq<FieldContext>)
    requires RenderSelectionSetForObject(schema, fragments, parent, concrete, contexts) == Ok(Some(Record(properties)))
    requires p in properties
    ensures CollectContexts(schema, fragments, concrete, parent, contexts).Ok?
    ensures group == WithKey(CollectContexts(schema, fragments, concrete, parent, contexts).value, p.key)
    ensures RenderProperty(schema, fragments, concrete, group) == Ok(Some(p.type_))
  {
    var collected := CollectContexts(schema, fragments, concrete, parent, contexts).value;
    PropertiesMatchKeys(schema, fragments, concrete, collected, KeysOf(collected));
    group := WithKey(collected, p.key);
  }

  /**
   * Every property of every emitted record, at any depth: it admits null if and only if the field it comes from is
   * nullable, and if that is a built-in scalar or an enum, exactly the values a server may answer.
   */
  lemma RecordPropertyIsExact(schema: Schema, fragments: FragmentMap, parent: string, concrete: string,
                              contexts: seq<SelectionSetContext>, properties: seq<Property>, p: Property, exact: bool)
    requires RenderSelectionSetForObject(schema, fragments, parent, concrete, contexts) == Ok(Some(Record(properties)))
    requires p in properties
    ensures CollectContexts(schema, fragments, concrete, parent, contexts).Ok?
    ensures var group := WithKey(CollectContexts(schema, fragments, concrete, parent, contexts).value, p.key);
            && group != []
            && p.key == (if group[0].field.alias.Some? then group[0].field.alias.value else group[0].field.name)
            && if group[0].field.name == "__typename" then
                 forall v :: Fits(schema, v, p.type_, exact) <==> v == Text(concrete)
               else
                 && HasFields(schema, group[0].scope) && group[0].field.name in FieldsOf(schema, group[0].scope)
                 && var t := FieldsOf(schema, group[0].scope)[group[0].field.name];
                    && (Fits(schema, Null, p.type_, exact) <==>
                        t.Nullable? || (t.of.Named? && IsCustomScalar(schema, t.of.name)))
                    && (!IsComposite(schema, NamedTypeOf(t)) && !IsCustomScalar(schema, NamedTypeOf(t)) ==>
                          forall v :: Fits(schema, v, p.type_, exact) <==> Completes(schema, fragments, t, [], v))
  {
    var group := PropertyOrigin(schema, fragments, parent, concrete, contexts, properties, p);
    WithKeyMembers(CollectContexts(schema, fragments, concrete, parent, contexts).value, p.key);
    PropertyIsExact(schema, fragments, concrete, group, p.type_, Null, exact);
    assert group[0] in group;
    if group[0].field.name == "__typename" {
      forall v ensures Fits(schema, v, p.type_, exact) <==> v == Text(concrete) {
        PropertyIsExact(schema, fragments, concrete, group, p.type_, v, exact);
      }
    } else {
      var t := FieldType(schema, group);
      NullIsAdmittedIff(schema, fragments, t, NestedContexts(group), exact);
      if !IsComposite(schema, NamedTypeOf(t)) && !IsCustomScalar(schema, NamedTypeOf(t)) {
        forall v ensures Fits(schema, v, p.type_, exact) <==> Completes(schema, fragments, t, [], v) {
          PropertyIsExact(schema, fragments, concrete, group, p.type_, v, exact);
          LeafAdmitsCompletions(schema, fragments, t, NestedContexts(group), [], v, exact);
        }
      }
    }
  }

  /** The emitted type admits exactly what the record for the operation's root type admits. */
  lemma EmittedIsExact(schema: Schema, fragments: FragmentMap, operation: Definition, emitted: Emitted, root: string,
                       v: Value, exact: bool)
    requires operation.OperationDefinition? && IsRoot(schema, operation.kind, root)
    requires EmitDefinition(schema, fragments, operation) == Ok([emitted])
    ensures operation.name == Some(emitted.name)
    ensures emitted.type_.Some? ==>
              (Fits(schema, v, emitted.type_.value, exact) <==>
               AdmitsObject(schema, fragments, root, [SelectionSetContext(operation.selectionSet, {})], v, exact))
  {
    if emitted.type_.Some? {
      UnionIsExact(schema, fragments, root, [SelectionSetContext(operation.selectionSet, {})], v, exact);
    }
  }
}
