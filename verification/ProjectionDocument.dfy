/** GraphQL selections and fragments, with the sizes every traversal below terminates by. */
module ProjectionDocument {
  import opened Outcomes

  datatype FieldNode = FieldNode(
    alias: Option<string>,
    name: string,
    directives: seq<string>,
    selectionSet: SelectionSet)

  /** A field's own selection set; leaf fields have none. */
  datatype SelectionSet = Absent | Present(selections: seq<Selection>)

  datatype Selection =
    | Field(field: FieldNode)
    | FragmentSpread(name: string)
    | InlineFragment(typeCondition: Option<string>, selectionSet: seq<Selection>)

  datatype Fragment = Fragment(typeCondition: string, selectionSet: seq<Selection>)

  type FragmentMap = map<string, Fragment>

  const CACHE_ONLY_DIRECTIVE := "cacheOnly"

  predicate IsCacheOnly(field: FieldNode) {
    CACHE_ONLY_DIRECTIVE in field.directives
  }

  function ResponseKey(field: FieldNode): string {
    match field.alias
    case Some(alias) => alias
    case None => field.name
  }

  function SubSelections(field: FieldNode): seq<Selection> {
    match field.selectionSet
    case Present(selections) => selections
    case Absent => []
  }

  function Size(selections: seq<Selection>): nat {
    if selections == [] then 0 else SelectionSize(selections[0]) + Size(selections[1..])
  }

  function SelectionSize(selection: Selection): (size: nat)
    ensures size >= 1
  {
    match selection
    case Field(field) => (match field.selectionSet case Present(sub) => 1 + Size(sub) case Absent => 1)
    case FragmentSpread(_) => 1
    case InlineFragment(_, sub) => 1 + Size(sub)
  }

  lemma {:induction false} MemberSize(selections: seq<Selection>, i: nat)
    requires i < |selections|
    ensures SelectionSize(selections[i]) <= Size(selections)
  {
    if i > 0 {
      MemberSize(selections[1..], i - 1);
    }
  }

  /** The fragments a traversal may still enter. */
  function Inactive(fragments: FragmentMap, active: set<string>): set<string> {
    fragments.Keys - active
  }

  lemma EnteringShrinksInactive(fragments: FragmentMap, active: set<string>, name: string)
    requires name in fragments && name !in active
    ensures |Inactive(fragments, active + {name})| < |Inactive(fragments, active)|
  {
    assert Inactive(fragments, active + {name}) == Inactive(fragments, active) - {name};
  }
}
