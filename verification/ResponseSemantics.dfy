/**
 * What a server may answer (GraphQL, October 2021, sections 6.3.2, 6.4.3 and 6.4.4) and what it
 * means for an answer to have a rendered TypeScript type.
 */
module ResponseSemantics {
  import opened GraphqlTypes
  import opened ProjectionDocument
  import opened ProjectionRender

  datatype Value =
    | Null
    | Text(text: string)
    | Number(number: real)
    | Truth(truth: bool)
    | Items(items: seq<Value>)
    | Fields(entries: seq<Entry>)

  datatype Entry = Entry(key: string, value: Value)

  // ----- section 6.3.2, CollectFields -----

  function CollectResponse(schema: Schema, fragments: FragmentMap, concrete: string,
                           selections: seq<Selection>, visited: set<string>)
    : (r: (seq<FieldNode>, set<string>))
    ensures visited <= r.1
    decreases |Inactive(fragments, visited)|, Size(selections), 1
  {
    if selections == [] then ([], visited)
    else
      var (first, visited1) := CollectResponseHead(schema, fragments, concrete, selections[0], visited);
      VisitingShrinksInactive(fragments, visited, visited1);
      var (rest, visited2) := CollectResponse(schema, fragments, concrete, selections[1..], visited1);
      (first + rest, visited2)
  }

  function CollectResponseHead(schema: Schema, fragments: FragmentMap, concrete: string,
                               selection: Selection, visited: set<string>)
    : (r: (seq<FieldNode>, set<string>))
    ensures visited <= r.1
    decreases |Inactive(fragments, visited)|, SelectionSize(selection), 0
  {
    match selection
    case Field(field) => ([field], visited)
    case FragmentSpread(name) =>
      if name in visited then ([], visited)
      else if name !in fragments || !TypeConditionApplies(schema, fragments[name].typeCondition, concrete)
      then ([], visited + {name})
      else
        EnteringShrinksInactive(fragments, visited, name);
        CollectResponse(schema, fragments, concrete, fragments[name].selectionSet, visited + {name})
    case InlineFragment(typeCondition, sub) =>
      if typeCondition.Some? && !TypeConditionApplies(schema, typeCondition.value, concrete) then ([], visited)
      else CollectResponse(schema, fragments, concrete, sub, visited)
  }

  lemma VisitingShrinksInactive(fragments: FragmentMap, fewer: set<string>, more: set<string>)
    requires fewer <= more
    ensures |Inactive(fragments, more)| <= |Inactive(fragments, fewer)|
  {
    SubsetSize(Inactive(fragments, more), Inactive(fragments, fewer));
  }

  lemma {:induction false} SubsetSize<T>(a: set<T>, b: set<T>)
    requires a <= b
    ensures |a| <= |b|
  {
    if a != {} {
      var x :| x in a;
      SubsetSize(a - {x}, b - {x});
    }
  }

  /** The fields a server executes for `selections` on an object of type `concrete`. */
  function ResponseFields(schema: Schema, fragments: FragmentMap, concrete: string, selections: seq<Selection>)
    : seq<FieldNode>
  {
    CollectResponse(schema, fragments, concrete, selections, {}).0
  }

  function FieldsWithKey(fields: seq<FieldNode>, key: string): (group: seq<FieldNode>)
    ensures forall f :: f in group <==> f in fields && ResponseKey(f) == key
  {
    if fields == [] then []
    else
      assert fields == [fields[0]] + fields[1..];
      if ResponseKey(fields[0]) == key then [fields[0]] + FieldsWithKey(fields[1..], key)
      else FieldsWithKey(fields[1..], key)
  }

  /** Section 6.4.3, MergeSelectionSets. */
  function MergedSelections(group: seq<FieldNode>): seq<Selection> {
    if group == [] then [] else SubSelections(group[0]) + MergedSelections(group[1..])
  }

  lemma {:induction false} MergedOrigin(group: seq<FieldNode>, s: Selection) returns (f: FieldNode)
    requires s in MergedSelections(group)
    ensures f in group && s in SubSelections(f)
  {
    f := group[0];
    if s !in SubSelections(f) {
      f := MergedOrigin(group[1..], s);
    }
  }

  lemma {:induction false} MergedMember(group: seq<FieldNode>, f: FieldNode, s: Selection)
    requires f in group && s in SubSelections(f)
    ensures s in MergedSelections(group)
  {
    if s !in SubSelections(group[0]) {
      MergedMember(group[1..], f, s);
    }
  }

  // ----- section 6.4, executing fields -----

  ghost predicate LeafValue(schema: Schema, name: string, v: Value) {
    name in schema.types &&
    if schema.types[name].Enum? then v.Text? && v.text in schema.types[name].values
    else
      schema.types[name].Scalar? &&
      if name == "ID" || name == "String" then v.Text?
      else if name == "Int" || name == "Float" then v.Number?
      else if name == "Boolean" then v.Truth?
      else !v.Null?
  }

  /** `v` completes type `t`; composite values answer `selections`. */
  ghost predicate Completes(schema: Schema, fragments: FragmentMap, t: TypeRef, selections: seq<Selection>, v: Value)
    decreases v, 2
  {
    if v.Null? then t.Nullable? else CompletesBare(schema, fragments, t.of, selections, v)
  }

  ghost predicate CompletesBare(schema: Schema, fragments: FragmentMap, t: BareRef, selections: seq<Selection>,
      v: Value)
    decreases v, 1
  {
    match t
    case ListOf(item) =>
      v.Items? && forall x :: x in v.items ==> Completes(schema, fragments, item, selections, x)
    case Named(name) =>
      if IsComposite(schema, name) then
        exists concrete :: concrete in PossibleObjectTypes(schema, name)
                           && ObjectResponse(schema, fragments, concrete, selections, v)
      else LeafValue(schema, name, v)
  }

  /** The field is one the object can answer. Selecting any other field is rejected by validation. */
  predicate CanAnswer(schema: Schema, concrete: string, field: FieldNode) {
    field.name == "__typename" || (HasFields(schema, concrete) && field.name in FieldsOf(schema, concrete))
  }

  /** One entry per response key, holding the first field's value for the merged selections. */
  ghost predicate ObjectResponse(schema: Schema, fragments: FragmentMap, concrete: string,
                                 selections: seq<Selection>, v: Value)
    decreases v, 0
  {
    var fields := ResponseFields(schema, fragments, concrete, selections);
    && v.Fields?
    && (forall i, j :: 0 <= i < j < |v.entries| ==> v.entries[i].key != v.entries[j].key)
    && (forall f :: f in fields && CanAnswer(schema, concrete, FieldsWithKey(fields, ResponseKey(f))[0]) ==>
          exists e :: e in v.entries && e.key == ResponseKey(f))
    && (forall e :: e in v.entries ==>
          var group := FieldsWithKey(fields, e.key);
          && group != []
          && CanAnswer(schema, concrete, group[0])
          && if group[0].name == "__typename" then e.value == Text(concrete)
             else Completes(schema, fragments, FieldsOf(schema, concrete)[group[0].name],
                            MergedSelections(group), e.value))
  }

  /**
   * Section 5.3.2, FieldsInSetCanMerge, `depth` levels down: fields of one object that share a response
   * key are the same field. Argument and alias spelling play no part in typing and are left out.
   */
  ghost predicate CanMergeTo(schema: Schema, fragments: FragmentMap, concrete: string,
                             selections: seq<Selection>, depth: nat)
    decreases depth, 0
  {
    var fields := ResponseFields(schema, fragments, concrete, selections);
    depth == 0 ||
    (KeysAgree(fields)
     && forall f :: f in fields ==> ChildrenCanMerge(schema, fragments, concrete, fields, f, depth - 1))
  }

  ghost predicate KeysAgree(fields: seq<FieldNode>) {
    forall f, g :: f in fields && g in fields && ResponseKey(f) == ResponseKey(g) ==> f.name == g.name
  }

  ghost predicate ChildrenCanMerge(schema: Schema, fragments: FragmentMap, concrete: string,
                                   fields: seq<FieldNode>, f: FieldNode, depth: nat)
    decreases depth, 1
  {
    HasFields(schema, concrete) && f.name in FieldsOf(schema, concrete) ==>
      forall next :: next in PossibleObjectTypes(schema, NamedTypeOf(FieldsOf(schema, concrete)[f.name])) ==>
                       CanMergeTo(schema, fragments, next,
                                  MergedSelections(FieldsWithKey(fields, ResponseKey(f))), depth)
  }

  ghost predicate CanMerge(schema: Schema, fragments: FragmentMap, concrete: string, selections: seq<Selection>) {
    forall depth: nat :: CanMergeTo(schema, fragments, concrete, selections, depth)
  }

  // ----- having a rendered type -----

  /** Nothing visible: null, or lists and objects with nothing visible in them. */
  predicate Hollow(v: Value) {
    match v
    case Null => true
    case Items(items) => forall x :: x in items ==> Hollow(x)
    case Fields(entries) => forall e :: e in entries ==> Hollow(e.value)
    case _ => false
  }

  /**
   * `v` has type `t`. Records use width subtyping: further entries are allowed. When `exact`, a further
   * entry must be hollow, so every visible piece of data is described by the type.
   */
  ghost predicate Fits(schema: Schema, v: Value, t: Ts, exact: bool)
    decreases t
  {
    match t
    case StringType => v.Text?
    case NumberType => v.Number?
    case BooleanType => v.Truth?
    case UnknownType => true
    case EnumType(name) =>
      v.Text? && name in schema.types && schema.types[name].Enum? && v.text in schema.types[name].values
    case Literal(text) => v == Text(text)
    case ArrayOf(item) => v.Items? && forall x :: x in v.items ==> Fits(schema, x, item, exact)
    case OrNull(type_) => v.Null? || Fits(schema, v, type_, exact)
    case UnionOf(branches) => exists b :: b in branches && Fits(schema, v, b, exact)
    case Record(properties) =>
      && v.Fields?
      && (forall p :: p in properties ==>
            exists e :: e in v.entries && e.key == p.key && Fits(schema, e.value, p.type_, exact))
      && (exact ==> forall e :: e in v.entries ==> (exists p :: p in properties && p.key == e.key) || Hollow(e.value))
  }
}
