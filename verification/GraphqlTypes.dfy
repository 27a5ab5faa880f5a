/** The part of a GraphQL schema the projection compiler consults. */
module GraphqlTypes {
  import opened Outcomes

  /** A type reference. A non-null type never directly wraps another one, as in graphql-js. */
  datatype TypeRef = Nullable(of: BareRef) | NonNull(of: BareRef)
  datatype BareRef = Named(name: string) | ListOf(item: TypeRef)

  datatype TypeDef =
    | Scalar
    | Enum(values: set<string>)
    | Object(fields: map<string, TypeRef>, interfaces: seq<string>)
    | Interface(fields: map<string, TypeRef>, interfaces: seq<string>)
    | Union(members: seq<string>)
    | InputObject

  /** `order` is the enumeration order of the schema's type map. */
  datatype Schema = Schema(
    types: map<string, TypeDef>,
    order: seq<string>,
    query: Option<string>,
    mutation: Option<string>,
    subscription: Option<string>)

  function NamedTypeOf(t: TypeRef): string {
    match t.of
    case Named(name) => name
    case ListOf(item) => NamedTypeOf(item)
  }

  predicate IsObject(schema: Schema, name: string) {
    name in schema.types && schema.types[name].Object?
  }

  predicate IsInterface(schema: Schema, name: string) {
    name in schema.types && schema.types[name].Interface?
  }

  predicate IsUnion(schema: Schema, name: string) {
    name in schema.types && schema.types[name].Union?
  }

  predicate IsComposite(schema: Schema, name: string) {
    IsObject(schema, name) || IsInterface(schema, name) || IsUnion(schema, name)
  }

  predicate HasFields(schema: Schema, name: string) {
    IsObject(schema, name) || IsInterface(schema, name)
  }

  function FieldsOf(schema: Schema, name: string): map<string, TypeRef>
    requires HasFields(schema, name)
  {
    schema.types[name].fields
  }

  /** Whether `name` is declared to implement `interface`. */
  predicate Implements(schema: Schema, name: string, interface: string) {
    HasFields(schema, name) && interface in schema.types[name].interfaces
  }

  function Implementers(schema: Schema, names: seq<string>, interface: string): (r: seq<string>)
    ensures forall n :: n in r <==> n in names && IsObject(schema, n) && Implements(schema, n, interface)
  {
    if names == [] then []
    else if IsObject(schema, names[0]) && Implements(schema, names[0], interface)
    then [names[0]] + Implementers(schema, names[1..], interface)
    else Implementers(schema, names[1..], interface)
  }

  /** The object types a value of composite type `parent` can have, in schema order. */
  function PossibleObjectTypes(schema: Schema, parent: string): seq<string> {
    if IsObject(schema, parent) then [parent]
    else if IsInterface(schema, parent) then Implementers(schema, schema.order, parent)
    else if IsUnion(schema, parent) then schema.types[parent].members
    else []
  }

  /** `schema.isSubType` for an abstract type. */
  predicate IsSubType(schema: Schema, abstractType: string, name: string) {
    (IsUnion(schema, abstractType) && name in schema.types[abstractType].members)
    || (IsInterface(schema, abstractType) && Implements(schema, name, abstractType))
  }

  predicate TypeConditionApplies(schema: Schema, condition: string, concrete: string) {
    if IsObject(schema, condition) then condition == concrete
    else IsSubType(schema, condition, concrete)
  }

  /** Covariance of field types (GraphQL, October 2021, section 3.6, IsValidImplementationFieldType). */
  predicate IsCovariant(schema: Schema, sub: TypeRef, super: TypeRef) {
    (super.NonNull? ==> sub.NonNull?)
    && match (sub.of, super.of)
       case (Named(a), Named(b)) => a == b || IsSubType(schema, b, a)
       case (ListOf(a), ListOf(b)) => IsCovariant(schema, a, b)
       case _ => false
  }

  /** What graphql-js checks of a schema before any document is read against it. */
  ghost predicate ValidSchema(schema: Schema) {
    && (forall n :: n in schema.types <==> n in schema.order)
    && (forall root :: root in [schema.query, schema.mutation, schema.subscription] && root.Some? ==>
          IsObject(schema, root.value))
    && (forall u, m :: IsUnion(schema, u) && m in schema.types[u].members ==> IsObject(schema, m))
    && (forall t, i :: HasFields(schema, t) && Implements(schema, t, i) ==>
          && IsInterface(schema, i)
          && (forall f :: f in FieldsOf(schema, i) ==>
                f in FieldsOf(schema, t) && IsCovariant(schema, FieldsOf(schema, t)[f], FieldsOf(schema, i)[f]))
          && (forall j :: Implements(schema, i, j) ==> Implements(schema, t, j)))
  }

  /** An object type is possible for itself, for the interfaces it declares, and for the unions that list it. */
  lemma PossibleIff(schema: Schema, parent: string, concrete: string)
    requires ValidSchema(schema)
    ensures concrete in PossibleObjectTypes(schema, parent) <==>
            && concrete in schema.types && schema.types[concrete].Object? && parent in schema.types
            && match schema.types[parent]
               case Object(_, _) => concrete == parent
               case Interface(_, _) => parent in schema.types[concrete].interfaces
               case Union(members) => concrete in members
               case _ => false
  {
    assert concrete in schema.types <==> concrete in schema.order;
    if IsUnion(schema, parent) {
      assert concrete in schema.types[parent].members ==> IsObject(schema, concrete);
    }
  }

  /** Fragments apply to the object types that are possible for their condition. */
  lemma AppliesIffPossible(schema: Schema, condition: string, concrete: string)
    requires ValidSchema(schema) && IsObject(schema, concrete)
    ensures TypeConditionApplies(schema, condition, concrete) <==> concrete in PossibleObjectTypes(schema, condition)
  {
  }

  /** Every possible type of an abstract type is an object type. */
  lemma PossibleAreObjects(schema: Schema, parent: string, concrete: string)
    requires ValidSchema(schema) && concrete in PossibleObjectTypes(schema, parent)
    ensures IsObject(schema, concrete) && IsComposite(schema, parent)
  {
  }

  /** Narrowing a field's type never adds possible object types, and never turns a leaf into a composite. */
  lemma CovariantNamedType(schema: Schema, sub: TypeRef, super: TypeRef)
    requires ValidSchema(schema) && IsCovariant(schema, sub, super)
    ensures NamedTypeOf(sub) == NamedTypeOf(super)
            || (IsComposite(schema, NamedTypeOf(sub)) && IsComposite(schema, NamedTypeOf(super)))
    ensures forall t :: t in PossibleObjectTypes(schema, NamedTypeOf(sub)) ==>
                          t in PossibleObjectTypes(schema, NamedTypeOf(super))
  {
    match (sub.of, super.of)
    case (Named(a), Named(b)) =>
      if a != b {
        forall t | t in PossibleObjectTypes(schema, a)
          ensures t in PossibleObjectTypes(schema, b)
        {
          PossibleAreObjects(schema, a, t);
          assert IsInterface(schema, b) ==> Implements(schema, t, b);
        }
      }
    case (ListOf(a), ListOf(b)) => CovariantNamedType(schema, a, b);
  }

  /** A field selected through an applicable scope exists on the concrete type, with a covariant type. */
  lemma ScopeFieldOnConcrete(schema: Schema, scope: string, concrete: string, name: string)
    requires ValidSchema(schema) && concrete in PossibleObjectTypes(schema, scope)
    requires HasFields(schema, scope) && name in FieldsOf(schema, scope)
    ensures HasFields(schema, concrete) && name in FieldsOf(schema, concrete)
    ensures IsCovariant(schema, FieldsOf(schema, concrete)[name], FieldsOf(schema, scope)[name])
  {
    PossibleAreObjects(schema, scope, concrete);
    if scope == concrete {
      CovariantReflexive(schema, FieldsOf(schema, scope)[name]);
    } else {
      assert Implements(schema, concrete, scope);
    }
  }

  lemma {:induction false} CovariantReflexive(schema: Schema, t: TypeRef)
    ensures IsCovariant(schema, t, t)
  {
    match t.of
    case Named(_) =>
    case ListOf(item) => CovariantReflexive(schema, item);
  }
}
