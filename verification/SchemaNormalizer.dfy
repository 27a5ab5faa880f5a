/** Giving every object schema explicit `properties` (`normalize_request_schema`), without changing what it accepts. */
module SchemaNormalizer {
  import opened Outcomes
  import opened Json

  /** Keywords holding schemas by name, in a list, and directly: the ones the rewrite enters. */
  const NAMED := ["properties", "$defs", "definitions"]
  const LISTED := ["anyOf", "oneOf", "allOf", "prefixItems"]
  const DIRECT := ["items", "additionalProperties", "not", "if", "then", "else"]
  const ENTERED := NAMED + LISTED + DIRECT

  const OBJECT := JsonString("object")
  const EMPTY := JsonObject(map[])

  predicate IsObjectSchema(schema: Json) {
    schema.JsonObject? && "type" in schema.members && schema.members["type"] == OBJECT
  }

  predicate LacksProperties(schema: Json) {
    IsObjectSchema(schema) && "properties" !in schema.members
  }

  // ----- the rewrite -----

  function Normalize(schema: Json): Json
    decreases schema, 0
  {
    match schema
    case JsonObject(members) =>
      JsonObject(map key | key in members.Keys + (if LacksProperties(schema) then {"properties"} else {}) ::
        if key in members then NormalizeValue(key, members[key]) else EMPTY)
    case _ => schema
  }

  /** The value of one keyword, with the schemas in it rewritten. */
  function NormalizeValue(key: string, value: Json): Json
    decreases value, 1
  {
    if key in NAMED then
      if value.JsonObject?
      then JsonObject(map name | name in value.members :: Normalize(value.members[name]))
      else value
    else if key in LISTED then
      if value.JsonArray?
      then JsonArray(seq(|value.items|, i requires 0 <= i < |value.items| => Normalize(value.items[i])))
      else value
    else if key in DIRECT then Normalize(value)
    else value
  }

  // ----- what a schema means -----

  /** Whether an instance is accepted, and which of its properties and items the schema has evaluated. */
  datatype Outcome = Outcome(valid: bool, properties: set<string>, items: set<nat>)

  const ACCEPT := Outcome(true, {}, {})
  const REJECT := Outcome(false, {}, {})

  function Both(a: Outcome, b: Outcome): Outcome {
    Outcome(a.valid && b.valid, a.properties + b.properties, a.items + b.items)
  }

  /** A schema that rejects its instance evaluates nothing in it. */
  function Settle(o: Outcome): Outcome {
    if o.valid then o else REJECT
  }

  /**
   * Any reading of the keywords the rewrite does not enter, such as `type`, `required`, `enum`, `contains`
   * and `dependentSchemas`; `patterned` are the property names that `patternProperties` covers.
   */
  datatype Others = Others(
    outcome: (map<string, Json>, Json) -> Outcome,
    patterned: (map<string, Json>, Json) -> set<string>)

  function OtherKeywords(schema: Json): map<string, Json>
    requires schema.JsonObject?
  {
    map key | key in schema.members && key !in ENTERED :: schema.members[key]
  }

  /** The schemas of a named keyword; an absent keyword has none. */
  function NamedSchemas(schema: Json, key: string): (r: map<string, Json>)
    requires schema.JsonObject?
    ensures forall n :: n in r ==> r[n] < schema
  {
    if key in schema.members && schema.members[key].JsonObject? then schema.members[key].members else map[]
  }

  function ListedSchemas(schema: Json, key: string): (r: seq<Json>)
    requires schema.JsonObject?
    ensures forall i :: 0 <= i < |r| ==> r[i] < schema
  {
    if key in schema.members && schema.members[key].JsonArray? then schema.members[key].items else []
  }

  predicate HasList(schema: Json, key: string)
    requires schema.JsonObject?
  {
    key in schema.members && schema.members[key].JsonArray?
  }

  function Names(instance: Json): set<string> {
    if instance.JsonObject? then instance.members.Keys else {}
  }

  function Length(instance: Json): nat {
    if instance.JsonArray? then |instance.items| else 0
  }

  /** The positions from `low` up to, not including, `high`. */
  function Positions(low: nat, high: nat): (r: set<nat>)
    ensures forall i: nat :: i in r <==> low <= i < high
  {
    if high <= low then {} else Positions(low, high - 1) + {high - 1}
  }

  /** Sections 10 and 11 of JSON Schema Core 2020-12. A value that is no schema constrains nothing. */
  function Evaluate(others: Others, schema: Json, instance: Json): Outcome
    decreases schema, 3
  {
    match schema
    case JsonBool(truth) => if truth then ACCEPT else REJECT
    case JsonObject(_) =>
      var inPlace := Both(others.outcome(OtherKeywords(schema), instance), Applicators(others, schema, instance));
      Settle(Both(inPlace, Unevaluated(others, schema, instance, inPlace)))
    case _ => ACCEPT
  }

  function Applicators(others: Others, schema: Json, instance: Json): Outcome
    requires schema.JsonObject?
    decreases schema, 2
  {
    Both(Both(ByProperty(others, schema, instance), ByItem(others, schema, instance)),
         Both(ByLists(others, schema, instance), ByCondition(others, schema, instance)))
  }

  /** `properties` and, for the names neither it nor a pattern covers, `additionalProperties`. */
  function ByProperty(others: Others, schema: Json, instance: Json): Outcome
    requires schema.JsonObject?
    decreases schema, 1
  {
    var declared := NamedSchemas(schema, "properties");
    var listed := Names(instance) * declared.Keys;
    var additional := Names(instance) - declared.Keys - others.patterned(OtherKeywords(schema), instance);
    Both(
      Outcome(forall n :: n in listed ==> Evaluate(others, declared[n], instance.members[n]).valid, listed, {}),
      EachProperty(others, schema, "additionalProperties", instance, additional))
  }

  /** One schema for all of some properties. */
  function EachProperty(others: Others, schema: Json, key: string, instance: Json, names: set<string>): Outcome
    requires schema.JsonObject? && names <= Names(instance)
    decreases schema, 0
  {
    if key !in schema.members then ACCEPT
    else Outcome(forall n :: n in names ==> Evaluate(others, schema.members[key], instance.members[n]).valid, names, {})
  }

  function EachItem(others: Others, schema: Json, key: string, instance: Json, indices: set<nat>): Outcome
    requires schema.JsonObject? && indices <= Positions(0, Length(instance))
    decreases schema, 0
  {
    if key !in schema.members then ACCEPT
    else
      Outcome(forall i :: i in indices ==> Evaluate(others, schema.members[key], instance.items[i]).valid, {}, indices)
  }

  /** `prefixItems` by position, and `items` after them. */
  function ByItem(others: Others, schema: Json, instance: Json): Outcome
    requires schema.JsonObject?
    decreases schema, 1
  {
    var prefix := ListedSchemas(schema, "prefixItems");
    var first := Positions(0, if |prefix| < Length(instance) then |prefix| else Length(instance));
    var rest := Positions(|prefix|, Length(instance));
    Both(
      Outcome(forall i :: i in first ==> Evaluate(others, prefix[i], instance.items[i]).valid, {}, first),
      EachItem(others, schema, "items", instance, rest))
  }

  function ListOutcomes(others: Others, schema: Json, key: string, instance: Json): (r: seq<Outcome>)
    requires schema.JsonObject?
    decreases schema, 0
  {
    var list := ListedSchemas(schema, key);
    seq(|list|, i requires 0 <= i < |list| => Evaluate(others, list[i], instance))
  }

  function Accepting(outcomes: seq<Outcome>): nat {
    if outcomes == [] then 0 else (if outcomes[0].valid then 1 else 0) + Accepting(outcomes[1..])
  }

  function Collected(valid: bool, outcomes: seq<Outcome>): Outcome {
    if outcomes == [] then Outcome(valid, {}, {})
    else Both(Collected(valid, outcomes[1..]), Outcome(true, outcomes[0].properties, outcomes[0].items))
  }

  function ByLists(others: Others, schema: Json, instance: Json): Outcome
    requires schema.JsonObject?
    decreases schema, 1
  {
    var allOf := ListOutcomes(others, schema, "allOf", instance);
    var anyOf := ListOutcomes(others, schema, "anyOf", instance);
    var oneOf := ListOutcomes(others, schema, "oneOf", instance);
    Both(Collected(Accepting(allOf) == |allOf|, allOf),
         Both(Collected(HasList(schema, "anyOf") ==> Accepting(anyOf) > 0, anyOf),
              Collected(HasList(schema, "oneOf") ==> Accepting(oneOf) == 1, oneOf)))
  }

  function At(others: Others, schema: Json, key: string, instance: Json): Outcome
    requires schema.JsonObject?
    decreases schema, 0
  {
    if key in schema.members then Evaluate(others, schema.members[key], instance) else ACCEPT
  }

  /** `not`, and `if` with its branches. */
  function ByCondition(others: Others, schema: Json, instance: Json): Outcome
    requires schema.JsonObject?
    decreases schema, 1
  {
    var condition := At(others, schema, "if", instance);
    Both(
      Outcome("not" in schema.members ==> !At(others, schema, "not", instance).valid, {}, {}),
      if "if" !in schema.members then ACCEPT
      else if condition.valid then Both(condition, At(others, schema, "then", instance))
      else At(others, schema, "else", instance))
  }

  /** `unevaluatedProperties` and `unevaluatedItems`, for what everything beside them left out. */
  function Unevaluated(others: Others, schema: Json, instance: Json, sofar: Outcome): Outcome
    requires schema.JsonObject?
    decreases schema, 2
  {
    Both(EachProperty(others, schema, "unevaluatedProperties", instance, Names(instance) - sofar.properties),
         EachItem(others, schema, "unevaluatedItems", instance, Positions(0, Length(instance)) - sofar.items))
  }

  // ----- what the evaluator demands, on schemas a reader can judge -----

  /** The other keywords say nothing. */
  ghost predicate Silent(others: Others) {
    forall members, instance ::
      others.outcome(members, instance) == ACCEPT && others.patterned(members, instance) == {}
  }

  lemma BothAccept(o: Outcome)
    ensures Both(ACCEPT, o) == o && Both(o, ACCEPT) == o
  {
    assert {} + o.properties == o.properties && o.properties + {} == o.properties;
    assert {} + o.items == o.items && o.items + {} == o.items;
  }

  predicate NoLists(schema: Json)
    requires schema.JsonObject?
  {
    && "allOf" !in schema.members && "anyOf" !in schema.members && "oneOf" !in schema.members
    && "prefixItems" !in schema.members && "items" !in schema.members
  }

  predicate NoProperties(schema: Json)
    requires schema.JsonObject?
  {
    "properties" !in schema.members && "additionalProperties" !in schema.members
  }

  predicate NoUnevaluated(schema: Json)
    requires schema.JsonObject?
  {
    "unevaluatedProperties" !in schema.members && "unevaluatedItems" !in schema.members
  }

  lemma AbsentListsAccept(others: Others, schema: Json, instance: Json)
    requires schema.JsonObject? && NoLists(schema)
    ensures ByLists(others, schema, instance) == ACCEPT && ByItem(others, schema, instance) == ACCEPT
  {
    BothAccept(ACCEPT);
  }

  /** `not` accepts exactly what its schema rejects, and evaluates nothing. */
  lemma NotNegates(others: Others, schema: Json, instance: Json)
    requires Silent(others) && schema.JsonObject? && NoLists(schema) && NoProperties(schema) && NoUnevaluated(schema)
    requires "not" in schema.members && "if" !in schema.members
    ensures Evaluate(others, schema, instance)
            == if Evaluate(others, schema.members["not"], instance).valid then REJECT else ACCEPT
  {
    var verdict := Outcome(!Evaluate(others, schema.members["not"], instance).valid, {}, {});
    assert ByCondition(others, schema, instance) == Both(verdict, ACCEPT);
    AbsentListsAccept(others, schema, instance);
    NoPropertiesAccepts(others, schema, instance);
    BothAccept(ACCEPT);
    BothAccept(verdict);
    assert Applicators(others, schema, instance) == verdict;
    NothingUnevaluated(others, schema, instance, verdict);
  }

  lemma NoPropertiesAccepts(others: Others, schema: Json, instance: Json)
    requires schema.JsonObject? && NoProperties(schema)
    ensures ByProperty(others, schema, instance) == ACCEPT
  {
    BothAccept(ACCEPT);
    assert Names(instance) * {} == {};
  }

  /** The instance has declared properties only, each accepted by its schema. */
  ghost predicate AsDeclared(others: Others, declared: map<string, Json>, instance: Json) {
    instance.JsonObject? &&
    forall n :: n in instance.members ==> n in declared && Evaluate(others, declared[n], instance.members[n]).valid
  }

  lemma OnlyProperties(others: Others, schema: Json, instance: Json)
    requires Silent(others) && schema.JsonObject? && NoLists(schema)
    requires "not" !in schema.members && "if" !in schema.members
    ensures Applicators(others, schema, instance) == ByProperty(others, schema, instance)
  {
    AbsentListsAccept(others, schema, instance);
    BothAccept(ACCEPT);
    BothAccept(ByProperty(others, schema, instance));
  }

  /** Closing an object schema with `additionalProperties` admits the declared properties only. */
  lemma ClosedByAdditional(others: Others, schema: Json, instance: Json)
    requires Silent(others) && schema.JsonObject? && instance.JsonObject?
    requires "additionalProperties" in schema.members && schema.members["additionalProperties"] == JsonBool(false)
    ensures ByProperty(others, schema, instance).valid <==>
            AsDeclared(others, NamedSchemas(schema, "properties"), instance)
  {
    var declared := NamedSchemas(schema, "properties");
    var additional := Names(instance) - declared.Keys - others.patterned(OtherKeywords(schema), instance);
    ClosedIffNone(others, schema, "additionalProperties", instance, additional);
    if additional != {} {
      var n :| n in additional;
      assert n in instance.members && n !in declared;
    }
  }

  lemma ClosedIffNone(others: Others, schema: Json, key: string, instance: Json, names: set<string>)
    requires schema.JsonObject? && names <= Names(instance)
    requires key in schema.members && schema.members[key] == JsonBool(false)
    ensures EachProperty(others, schema, key, instance, names).valid <==> names == {}
  {
    if names != {} {
      var n :| n in names;
      assert !Evaluate(others, schema.members[key], instance.members[n]).valid;
    }
  }

  /** So does closing it with `unevaluatedProperties`, which sees what `properties` has evaluated. */
  lemma ClosedByUnevaluated(others: Others, schema: Json, instance: Json)
    requires Silent(others) && schema.JsonObject? && instance.JsonObject?
    requires "additionalProperties" !in schema.members && "unevaluatedItems" !in schema.members
    requires "unevaluatedProperties" in schema.members && schema.members["unevaluatedProperties"] == JsonBool(false)
    ensures var o := ByProperty(others, schema, instance);
            Both(o, Unevaluated(others, schema, instance, o)).valid <==>
            AsDeclared(others, NamedSchemas(schema, "properties"), instance)
  {
    var declared := NamedSchemas(schema, "properties");
    var o := ByProperty(others, schema, instance);
    var additional := Names(instance) - declared.Keys - others.patterned(OtherKeywords(schema), instance);
    assert EachProperty(others, schema, "additionalProperties", instance, additional) == ACCEPT;
    assert o.properties == Names(instance) * declared.Keys + {};
    var rest := Names(instance) - o.properties;
    ClosedIffNone(others, schema, "unevaluatedProperties", instance, rest);
    assert rest == Names(instance) - declared.Keys;
    if rest != {} {
      var n :| n in rest;
      assert n in instance.members && n !in declared;
    }
  }

  predicate ClosesWith(schema: Json, key: string)
    requires schema.JsonObject?
  {
    key in schema.members && schema.members[key] == JsonBool(false)
  }

  /** An object schema that only closes its properties, by either keyword, accepts exactly what is as declared. */
  lemma ClosedObjectIff(others: Others, schema: Json, instance: Json)
    requires Silent(others) && schema.JsonObject? && NoLists(schema) && instance.JsonObject?
    requires "not" !in schema.members && "if" !in schema.members && "unevaluatedItems" !in schema.members
    requires (ClosesWith(schema, "additionalProperties") && "unevaluatedProperties" !in schema.members)
             || (ClosesWith(schema, "unevaluatedProperties") && "additionalProperties" !in schema.members)
    ensures Evaluate(others, schema, instance).valid <==>
            AsDeclared(others, NamedSchemas(schema, "properties"), instance)
  {
    OnlyProperties(others, schema, instance);
    var o := ByProperty(others, schema, instance);
    BothAccept(o);
    if "additionalProperties" in schema.members {
      ClosedByAdditional(others, schema, instance);
      NothingUnevaluated(others, schema, instance, o);
    } else {
      ClosedByUnevaluated(others, schema, instance);
    }
  }

  /** No keyword stands beside lists or conditions. */
  predicate OnlyInPlace(schema: Json)
    requires schema.JsonObject?
  {
    && NoProperties(schema) && NoUnevaluated(schema)
    && "prefixItems" !in schema.members && "items" !in schema.members && "not" !in schema.members
  }

  lemma InPlaceDecides(others: Others, schema: Json, instance: Json)
    requires Silent(others) && schema.JsonObject? && OnlyInPlace(schema)
    ensures Evaluate(others, schema, instance).valid <==>
            ByLists(others, schema, instance).valid && ByCondition(others, schema, instance).valid
  {
    NoPropertiesAccepts(others, schema, instance);
    NothingUnevaluated(others, schema, instance, Applicators(others, schema, instance));
    BothAccept(Applicators(others, schema, instance));
    BothAccept(ACCEPT);
    assert ByItem(others, schema, instance) == ACCEPT;
  }

  ghost predicate OnlyOneValid(outcomes: seq<Outcome>, i: nat) {
    && i < |outcomes| && outcomes[i].valid
    && forall j :: 0 <= j < |outcomes| && j != i ==> !outcomes[j].valid
  }

  lemma {:induction false} AcceptingMeans(outcomes: seq<Outcome>)
    ensures Accepting(outcomes) <= |outcomes|
    ensures Accepting(outcomes) == |outcomes| <==> forall i :: 0 <= i < |outcomes| ==> outcomes[i].valid
    ensures Accepting(outcomes) > 0 <==> exists i :: 0 <= i < |outcomes| && outcomes[i].valid
    ensures Accepting(outcomes) == 1 <==> exists i: nat :: OnlyOneValid(outcomes, i)
  {
    if outcomes != [] {
      var rest := outcomes[1..];
      AcceptingMeans(rest);
      assert forall i :: 0 <= i < |rest| ==> rest[i] == outcomes[i + 1];
      assert forall i :: 0 < i < |outcomes| ==> outcomes[i] == rest[i - 1];
      OnlyOneShifts(outcomes);
    }
  }

  lemma OnlyOneShifts(outcomes: seq<Outcome>)
    requires outcomes != []
    ensures (exists i: nat :: OnlyOneValid(outcomes, i)) <==>
            if outcomes[0].valid then forall j :: 0 <= j < |outcomes[1..]| ==> !outcomes[1..][j].valid
            else exists i: nat :: OnlyOneValid(outcomes[1..], i)
  {
    var rest := outcomes[1..];
    assert forall i :: 0 < i < |outcomes| ==> outcomes[i] == rest[i - 1];
    if i: nat :| OnlyOneValid(outcomes, i) {
      if i > 0 {
        assert OnlyOneValid(rest, i - 1);
      }
    }
    if outcomes[0].valid {
      if forall j :: 0 <= j < |rest| ==> !rest[j].valid {
        assert OnlyOneValid(outcomes, 0);
      }
    } else if i: nat :| OnlyOneValid(rest, i) {
      assert OnlyOneValid(outcomes, i + 1);
    }
  }

  lemma {:induction false} CollectedValid(valid: bool, outcomes: seq<Outcome>)
    ensures Collected(valid, outcomes).valid == valid
  {
    if outcomes != [] {
      CollectedValid(valid, outcomes[1..]);
    }
  }

  /** The `i`-th schema of a list accepts the instance. */
  ghost predicate AcceptedAt(others: Others, schema: Json, key: string, instance: Json, i: nat)
    requires schema.JsonObject?
  {
    i < |ListedSchemas(schema, key)| && Evaluate(others, ListedSchemas(schema, key)[i], instance).valid
  }

  ghost predicate AcceptedAtOnly(others: Others, schema: Json, key: string, instance: Json, i: nat)
    requires schema.JsonObject?
  {
    AcceptedAt(others, schema, key, instance, i)
    && forall j: nat :: AcceptedAt(others, schema, key, instance, j) ==> j == i
  }

  lemma ListMeans(others: Others, schema: Json, key: string, instance: Json)
    requires schema.JsonObject?
    ensures var outcomes := ListOutcomes(others, schema, key, instance);
            && (Accepting(outcomes) == |outcomes| <==>
                forall i: nat :: i < |ListedSchemas(schema, key)| ==> AcceptedAt(others, schema, key, instance, i))
            && (Accepting(outcomes) > 0 <==> exists i: nat :: AcceptedAt(others, schema, key, instance, i))
            && (Accepting(outcomes) == 1 <==> exists i: nat :: AcceptedAtOnly(others, schema, key, instance, i))
  {
    var outcomes := ListOutcomes(others, schema, key, instance);
    AcceptingMeans(outcomes);
    assert forall i: nat :: i < |outcomes| ==> (outcomes[i].valid <==> AcceptedAt(others, schema, key, instance, i));
    if i: nat :| OnlyOneValid(outcomes, i) {
      assert AcceptedAtOnly(others, schema, key, instance, i);
    }
    if i: nat :| AcceptedAtOnly(others, schema, key, instance, i) {
      assert OnlyOneValid(outcomes, i);
    }
  }

  /** `allOf` demands every schema of its list, `anyOf` one at least, `oneOf` exactly one. */
  lemma ListsDecide(others: Others, schema: Json, instance: Json)
    requires Silent(others) && schema.JsonObject? && OnlyInPlace(schema) && "if" !in schema.members
    ensures Evaluate(others, schema, instance).valid <==>
            && (forall i: nat :: i < |ListedSchemas(schema, "allOf")| ==>
                  AcceptedAt(others, schema, "allOf", instance, i))
            && (HasList(schema, "anyOf") ==> exists i: nat :: AcceptedAt(others, schema, "anyOf", instance, i))
            && (HasList(schema, "oneOf") ==> exists i: nat :: AcceptedAtOnly(others, schema, "oneOf", instance, i))
  {
    InPlaceDecides(others, schema, instance);
    var allOf := ListOutcomes(others, schema, "allOf", instance);
    var anyOf := ListOutcomes(others, schema, "anyOf", instance);
    var oneOf := ListOutcomes(others, schema, "oneOf", instance);
    ListMeans(others, schema, "allOf", instance);
    ListMeans(others, schema, "anyOf", instance);
    ListMeans(others, schema, "oneOf", instance);
    CollectedValid(Accepting(allOf) == |allOf|, allOf);
    CollectedValid(HasList(schema, "anyOf") ==> Accepting(anyOf) > 0, anyOf);
    CollectedValid(HasList(schema, "oneOf") ==> Accepting(oneOf) == 1, oneOf);
  }

  /** The schema under a keyword accepts the instance, or there is none. */
  ghost predicate AcceptedUnder(others: Others, schema: Json, key: string, instance: Json)
    requires schema.JsonObject?
  {
    key in schema.members ==> Evaluate(others, schema.members[key], instance).valid
  }

  /** `if` demands `then` of what it accepts and `else` of what it rejects, and nothing itself. */
  lemma ConditionDecides(others: Others, schema: Json, instance: Json)
    requires Silent(others) && schema.JsonObject? && OnlyInPlace(schema) && NoLists(schema) && "if" in schema.members
    ensures Evaluate(others, schema, instance).valid <==>
            AcceptedUnder(others, schema,
                          if Evaluate(others, schema.members["if"], instance).valid then "then" else "else", instance)
  {
    InPlaceDecides(others, schema, instance);
    AbsentListsAccept(others, schema, instance);
  }

  /** `prefixItems` by position, and `items` from there on. */
  ghost predicate ItemAccepted(others: Others, schema: Json, instance: Json, i: nat)
    requires schema.JsonObject? && instance.JsonArray? && i < |instance.items|
  {
    var prefix := ListedSchemas(schema, "prefixItems");
    if i < |prefix| then Evaluate(others, prefix[i], instance.items[i]).valid
    else AcceptedUnder(others, schema, "items", instance.items[i])
  }

  lemma OnlyItems(others: Others, schema: Json, instance: Json)
    requires Silent(others) && schema.JsonObject? && NoProperties(schema)
    requires "not" !in schema.members && "if" !in schema.members
    requires "allOf" !in schema.members && "anyOf" !in schema.members && "oneOf" !in schema.members
    ensures Applicators(others, schema, instance) == ByItem(others, schema, instance)
  {
    NoPropertiesAccepts(others, schema, instance);
    BothAccept(ACCEPT);
    BothAccept(ByItem(others, schema, instance));
    assert ByLists(others, schema, instance) == ACCEPT;
  }

  /** Every item is judged by its place, if nothing else judges the array. */
  lemma ItemsDecide(others: Others, schema: Json, instance: Json)
    requires Silent(others) && schema.JsonObject? && instance.JsonArray?
    requires NoProperties(schema) && NoUnevaluated(schema)
    requires "not" !in schema.members && "if" !in schema.members
    requires "allOf" !in schema.members && "anyOf" !in schema.members && "oneOf" !in schema.members
    ensures Evaluate(others, schema, instance).valid <==>
            forall i: nat :: i < |instance.items| ==> ItemAccepted(others, schema, instance, i)
  {
    var item := ByItem(others, schema, instance);
    OnlyItems(others, schema, instance);
    BothAccept(item);
    NothingUnevaluated(others, schema, instance, item);
    EachItemDecides(others, schema, instance);
  }

  lemma EachItemDecides(others: Others, schema: Json, instance: Json)
    requires schema.JsonObject? && instance.JsonArray?
    ensures ByItem(others, schema, instance).valid <==>
            forall i: nat :: i < |instance.items| ==> ItemAccepted(others, schema, instance, i)
  {
    var prefix := ListedSchemas(schema, "prefixItems");
    var first := Positions(0, if |prefix| < Length(instance) then |prefix| else Length(instance));
    var rest := Positions(|prefix|, Length(instance));
    if ByItem(others, schema, instance).valid {
      assert EachItem(others, schema, "items", instance, rest).valid;
      forall i: nat | i < |instance.items| ensures ItemAccepted(others, schema, instance, i) {
        assert i in first || i in rest;
      }
    }
    if forall i: nat :: i < |instance.items| ==> ItemAccepted(others, schema, instance, i) {
      forall i | i in first ensures Evaluate(others, prefix[i], instance.items[i]).valid {
        assert ItemAccepted(others, schema, instance, i);
      }
      if "items" in schema.members {
        forall i | i in rest ensures Evaluate(others, schema.members["items"], instance.items[i]).valid {
          assert ItemAccepted(others, schema, instance, i);
        }
      }
    }
  }

  lemma ClosedItemsIffNone(others: Others, schema: Json, key: string, instance: Json, indices: set<nat>)
    requires schema.JsonObject? && indices <= Positions(0, Length(instance))
    requires key in schema.members && schema.members[key] == JsonBool(false)
    ensures EachItem(others, schema, key, instance, indices).valid <==> indices == {}
  {
    if indices != {} {
      var i :| i in indices;
      assert !Evaluate(others, schema.members[key], instance.items[i]).valid;
    }
  }

  /** What `prefixItems` leaves over is empty exactly when the array is no longer than its list. */
  lemma LeftOverItems(others: Others, schema: Json, instance: Json)
    requires schema.JsonObject? && instance.JsonArray? && "items" !in schema.members
    ensures Positions(0, Length(instance)) - ByItem(others, schema, instance).items == {} <==>
            |instance.items| <= |ListedSchemas(schema, "prefixItems")|
  {
    var prefix := ListedSchemas(schema, "prefixItems");
    var first := Positions(0, if |prefix| < Length(instance) then |prefix| else Length(instance));
    assert ByItem(others, schema, instance).items == first + {};
    if |prefix| < Length(instance) {
      assert |prefix| in Positions(0, Length(instance)) - first;
    }
  }

  /** Closing an array schema with `unevaluatedItems` admits no items past `prefixItems`. */
  lemma ClosedArrayIff(others: Others, schema: Json, instance: Json)
    requires Silent(others) && schema.JsonObject? && instance.JsonArray? && NoProperties(schema)
    requires "not" !in schema.members && "if" !in schema.members && "items" !in schema.members
    requires "allOf" !in schema.members && "anyOf" !in schema.members && "oneOf" !in schema.members
    requires ClosesWith(schema, "unevaluatedItems") && "unevaluatedProperties" !in schema.members
    ensures Evaluate(others, schema, instance).valid <==>
            && |instance.items| <= |ListedSchemas(schema, "prefixItems")|
            && forall i: nat :: i < |instance.items| ==> ItemAccepted(others, schema, instance, i)
  {
    var item := ByItem(others, schema, instance);
    OnlyItems(others, schema, instance);
    BothAccept(item);
    EachItemDecides(others, schema, instance);
    LeftOverItems(others, schema, instance);
    ClosedItemsIffNone(others, schema, "unevaluatedItems", instance, Positions(0, Length(instance)) - item.items);
    var rest := Positions(0, Length(instance)) - item.items;
    assert EachItem(others, schema, "unevaluatedItems", instance, rest).valid <==> rest == {};
    assert EachProperty(others, schema, "unevaluatedProperties", instance, Names(instance) - item.properties).valid;
    assert Unevaluated(others, schema, instance, item).valid <==> rest == {};
    assert Evaluate(others, schema, instance).valid <==> item.valid && rest == {};
  }

  lemma NothingUnevaluated(others: Others, schema: Json, instance: Json, o: Outcome)
    requires schema.JsonObject? && NoUnevaluated(schema)
    ensures Unevaluated(others, schema, instance, o) == ACCEPT
  {
    BothAccept(ACCEPT);
  }

  // ----- the rewrite keeps the meaning -----

  lemma EnteredKeys(key: string)
    ensures key in ENTERED <==> key in NAMED || key in LISTED || key in DIRECT
    ensures key in NAMED ==> key !in LISTED && key !in DIRECT
    ensures key in LISTED ==> key !in DIRECT
    ensures key == "properties" ==> key in NAMED
    ensures key == "type" || key == "unevaluatedProperties" || key == "unevaluatedItems" ==> key !in ENTERED
  {
  }

  lemma OthersUnchanged(schema: Json)
    requires schema.JsonObject?
    ensures OtherKeywords(Normalize(schema)) == OtherKeywords(schema)
  {
    forall key | key !in ENTERED
      ensures key in Normalize(schema).members <==> key in schema.members
      ensures key in schema.members ==> Normalize(schema).members[key] == schema.members[key]
    {
      EnteredKeys(key);
    }
  }

  /** An empty `properties` names no schemas, just as an absent one. */
  lemma NamedNormalized(schema: Json, key: string)
    requires schema.JsonObject? && key in NAMED
    ensures NamedSchemas(Normalize(schema), key)
            == map name | name in NamedSchemas(schema, key) :: Normalize(NamedSchemas(schema, key)[name])
  {
  }

  lemma ListedNormalized(schema: Json, key: string)
    requires schema.JsonObject? && key in LISTED
    ensures HasList(Normalize(schema), key) <==> HasList(schema, key)
    ensures var before, after := ListedSchemas(schema, key), ListedSchemas(Normalize(schema), key);
            |after| == |before| && forall i :: 0 <= i < |before| ==> after[i] == Normalize(before[i])
  {
    EnteredKeys(key);
    EnteredKeys("properties");
  }

  lemma DirectNormalized(schema: Json, key: string)
    requires schema.JsonObject? && key in DIRECT
    ensures key in Normalize(schema).members <==> key in schema.members
    ensures key in schema.members ==> Normalize(schema).members[key] == Normalize(schema.members[key])
  {
    EnteredKeys(key);
    EnteredKeys("properties");
  }

  /**
   * The rewrite is a semantic no-op: every instance gets the same verdict, and the same properties and items
   * count as evaluated, wherever the schema stands.
   */
  lemma {:induction false} NormalizePreserves(others: Others, schema: Json, instance: Json)
    ensures Evaluate(others, Normalize(schema), instance) == Evaluate(others, schema, instance)
    decreases schema, 3
  {
    if schema.JsonObject? {
      OthersUnchanged(schema);
      ByPropertyPreserved(others, schema, instance);
      ByItemPreserved(others, schema, instance);
      ByListsPreserved(others, schema, instance);
      ByConditionPreserved(others, schema, instance);
      var inPlace := Both(others.outcome(OtherKeywords(schema), instance), Applicators(others, schema, instance));
      UnevaluatedPreserved(others, schema, instance, inPlace);
    }
  }

  lemma {:induction false} EachPropertyPreserved(others: Others, schema: Json, key: string, instance: Json,
      names: set<string>)
    requires schema.JsonObject? && names <= Names(instance) && key in DIRECT
    ensures EachProperty(others, Normalize(schema), key, instance, names)
            == EachProperty(others, schema, key, instance, names)
    decreases schema, 0
  {
    DirectNormalized(schema, key);
    if key in schema.members {
      forall n | n in names
        ensures Evaluate(others, Normalize(schema.members[key]), instance.members[n])
                == Evaluate(others, schema.members[key], instance.members[n])
      {
        NormalizePreserves(others, schema.members[key], instance.members[n]);
      }
    }
  }

  lemma {:induction false} EachItemPreserved(others: Others, schema: Json, key: string, instance: Json,
      indices: set<nat>)
    requires schema.JsonObject? && indices <= Positions(0, Length(instance)) && key in DIRECT
    ensures EachItem(others, Normalize(schema), key, instance, indices)
            == EachItem(others, schema, key, instance, indices)
    decreases schema, 0
  {
    DirectNormalized(schema, key);
    if key in schema.members {
      forall i | i in indices
        ensures Evaluate(others, Normalize(schema.members[key]), instance.items[i])
                == Evaluate(others, schema.members[key], instance.items[i])
      {
        NormalizePreserves(others, schema.members[key], instance.items[i]);
      }
    }
  }

  lemma {:induction false} ByPropertyPreserved(others: Others, schema: Json, instance: Json)
    requires schema.JsonObject?
    ensures ByProperty(others, Normalize(schema), instance) == ByProperty(others, schema, instance)
    decreases schema, 1
  {
    OthersUnchanged(schema);
    NamedNormalized(schema, "properties");
    var declared := NamedSchemas(schema, "properties");
    var additional := Names(instance) - declared.Keys - others.patterned(OtherKeywords(schema), instance);
    EachPropertyPreserved(others, schema, "additionalProperties", instance, additional);
    forall n | n in Names(instance) * declared.Keys
      ensures Evaluate(others, Normalize(declared[n]), instance.members[n])
              == Evaluate(others, declared[n], instance.members[n])
    {
      NormalizePreserves(others, declared[n], instance.members[n]);
    }
    assert NamedSchemas(Normalize(schema), "properties").Keys == declared.Keys;
  }

  lemma {:induction false} ByItemPreserved(others: Others, schema: Json, instance: Json)
    requires schema.JsonObject?
    ensures ByItem(others, Normalize(schema), instance) == ByItem(others, schema, instance)
    decreases schema, 1
  {
    ListedNormalized(schema, "prefixItems");
    var prefix := ListedSchemas(schema, "prefixItems");
    EachItemPreserved(others, schema, "items", instance, Positions(|prefix|, Length(instance)));
    forall i | 0 <= i < |prefix| && i < Length(instance)
      ensures Evaluate(others, Normalize(prefix[i]), instance.items[i])
              == Evaluate(others, prefix[i], instance.items[i])
    {
      NormalizePreserves(others, prefix[i], instance.items[i]);
    }
  }

  lemma {:induction false} ListOutcomesPreserved(others: Others, schema: Json, key: string, instance: Json)
    requires schema.JsonObject? && key in LISTED
    ensures ListOutcomes(others, Normalize(schema), key, instance) == ListOutcomes(others, schema, key, instance)
    ensures HasList(Normalize(schema), key) <==> HasList(schema, key)
    decreases schema, 0
  {
    ListedNormalized(schema, key);
    var list := ListedSchemas(schema, key);
    forall i | 0 <= i < |list|
      ensures Evaluate(others, Normalize(list[i]), instance) == Evaluate(others, list[i], instance)
    {
      NormalizePreserves(others, list[i], instance);
    }
  }

  lemma {:induction false} ByListsPreserved(others: Others, schema: Json, instance: Json)
    requires schema.JsonObject?
    ensures ByLists(others, Normalize(schema), instance) == ByLists(others, schema, instance)
    decreases schema, 1
  {
    ListOutcomesPreserved(others, schema, "allOf", instance);
    ListOutcomesPreserved(others, schema, "anyOf", instance);
    ListOutcomesPreserved(others, schema, "oneOf", instance);
  }

  lemma {:induction false} AtPreserved(others: Others, schema: Json, key: string, instance: Json)
    requires schema.JsonObject? && key in DIRECT
    ensures At(others, Normalize(schema), key, instance) == At(others, schema, key, instance)
    ensures key in Normalize(schema).members <==> key in schema.members
    decreases schema, 0
  {
    DirectNormalized(schema, key);
    if key in schema.members {
      NormalizePreserves(others, schema.members[key], instance);
    }
  }

  lemma {:induction false} ByConditionPreserved(others: Others, schema: Json, instance: Json)
    requires schema.JsonObject?
    ensures ByCondition(others, Normalize(schema), instance) == ByCondition(others, schema, instance)
    decreases schema, 1
  {
    AtPreserved(others, schema, "not", instance);
    AtPreserved(others, schema, "if", instance);
    AtPreserved(others, schema, "then", instance);
    AtPreserved(others, schema, "else", instance);
  }

  lemma UnevaluatedPreserved(others: Others, schema: Json, instance: Json, sofar: Outcome)
    requires schema.JsonObject?
    ensures Unevaluated(others, Normalize(schema), instance, sofar) == Unevaluated(others, schema, instance, sofar)
  {
    EnteredKeys("properties");
    EnteredKeys("unevaluatedProperties");
    EnteredKeys("unevaluatedItems");
  }

  // ----- what the rewrite reaches -----

  /** Where one schema sits directly inside another. */
  datatype Place = ByName(key: string, name: string) | ByIndex(key: string, index: nat) | Under(key: string)

  /** The thirteen keywords that hold schemas, whatever the rewrite enters. */
  predicate Holds(place: Place) {
    match place
    case ByName(key, _) => key == "properties" || key == "$defs" || key == "definitions"
    case ByIndex(key, _) => key == "anyOf" || key == "oneOf" || key == "allOf" || key == "prefixItems"
    case Under(key) =>
      key == "items" || key == "additionalProperties" || key == "not"
      || key == "if" || key == "then" || key == "else"
  }

  function Inside(schema: Json, place: Place): (r: Option<Json>)
    ensures r.Some? ==> r.value < schema
  {
    if !schema.JsonObject? || !Holds(place) || place.key !in schema.members then None
    else
      var value := schema.members[place.key];
      match place
      case ByName(_, name) =>
        if value.JsonObject? && name in value.members then Some(value.members[name]) else None
      case ByIndex(_, index) =>
        if value.JsonArray? && index < |value.items| then Some(value.items[index]) else None
      case Under(_) => Some(value)
  }

  function Follow(schema: Json, path: seq<Place>): Option<Json>
    decreases |path|
  {
    if path == [] then Some(schema)
    else
      match Inside(schema, path[0])
      case None => None
      case Some(inner) => Follow(inner, path[1..])
  }

  function NormalizeFound(found: Option<Json>): Option<Json> {
    match found
    case None => None
    case Some(schema) => Some(Normalize(schema))
  }

  lemma InsideNormalized(schema: Json, place: Place)
    ensures Inside(Normalize(schema), place) == NormalizeFound(Inside(schema, place))
  {
    if schema.JsonObject? {
      match place {
        case ByName(key, name) =>
          if Holds(place) {
            NamedNormalized(schema, key);
          }
        case ByIndex(key, index) =>
          if Holds(place) {
            ListedNormalized(schema, key);
          }
        case Under(key) =>
          if Holds(place) {
            DirectNormalized(schema, key);
          }
      }
    }
  }

  /** The rewrite reaches every schema along the entered keywords, and makes no new ones. */
  lemma {:induction false} FollowNormalized(schema: Json, path: seq<Place>)
    ensures Follow(Normalize(schema), path) == NormalizeFound(Follow(schema, path))
    decreases |path|
  {
    if path != [] {
      InsideNormalized(schema, path[0]);
      if Inside(schema, path[0]).Some? {
        FollowNormalized(Inside(schema, path[0]).value, path[1..]);
      }
    }
  }

  predicate SaysObject(schema: Json) {
    schema.JsonObject? && "type" in schema.members && schema.members["type"] == JsonString("object")
  }

  /** A keyword that holds no schemas, in any shape. */
  predicate HoldsNone(key: string) {
    !Holds(ByName(key, "")) && !Holds(ByIndex(key, 0)) && !Holds(Under(key))
  }

  lemma HoldsNoneIsKept(schema: Json, key: string)
    requires schema.JsonObject? && key in schema.members && HoldsNone(key)
    ensures Normalize(schema).members[key] == schema.members[key]
  {
    OthersUnchanged(schema);
    EnteredKeys(key);
    assert key in OtherKeywords(schema) && key in OtherKeywords(Normalize(schema));
  }

  lemma TypeIsKept(schema: Json)
    ensures SaysObject(Normalize(schema)) <==> SaysObject(schema)
  {
    if schema.JsonObject? && "type" in schema.members {
      HoldsNoneIsKept(schema, "type");
    }
  }

  /** At the schema itself: only an object schema without `properties` gets them, and nothing else comes or goes. */
  lemma OnlyPropertiesAdded(schema: Json)
    ensures !schema.JsonObject? ==> Normalize(schema) == schema
    ensures schema.JsonObject? ==>
              && Normalize(schema).JsonObject?
              && Normalize(schema).members.Keys
                 == schema.members.Keys + (if SaysObject(schema) then {"properties"} else {})
              && (forall key :: key in schema.members && HoldsNone(key) ==>
                    Normalize(schema).members[key] == schema.members[key])
    ensures SaysObject(Normalize(schema)) <==> SaysObject(schema)
    ensures SaysObject(schema) && "properties" !in schema.members ==>
              Normalize(schema).members["properties"] == JsonObject(map[])
  {
    TypeIsKept(schema);
    if schema.JsonObject? {
      forall key | key in schema.members && HoldsNone(key)
        ensures Normalize(schema).members[key] == schema.members[key]
      {
        HoldsNoneIsKept(schema, key);
      }
    }
  }

  /** Every object schema that can be reached has `properties`. */
  ghost predicate Complete(schema: Json) {
    forall path :: CompleteAt(Follow(schema, path))
  }

  predicate CompleteAt(found: Option<Json>) {
    found.Some? && SaysObject(found.value) ==> "properties" in found.value.members
  }

  lemma NormalizedIsComplete(schema: Json)
    ensures Complete(Normalize(schema))
  {
    forall path ensures CompleteAt(Follow(Normalize(schema), path)) {
      FollowNormalized(schema, path);
      if Follow(schema, path).Some? {
        OnlyPropertiesAdded(Follow(schema, path).value);
      }
    }
  }

  lemma InnerIsComplete(schema: Json, place: Place)
    requires Complete(schema) && Inside(schema, place).Some?
    ensures Complete(Inside(schema, place).value)
  {
    var inner := Inside(schema, place).value;
    forall path ensures CompleteAt(Follow(inner, path)) {
      assert ([place] + path)[1..] == path;
      assert Follow(schema, [place] + path) == Follow(inner, path);
    }
  }

  lemma {:induction false} CompleteIsFixed(schema: Json)
    requires Complete(schema)
    ensures Normalize(schema) == schema
    decreases schema, 1
  {
    if schema.JsonObject? {
      assert Follow(schema, []) == Some(schema) && CompleteAt(Some(schema));
      forall key | key in schema.members ensures NormalizeValue(key, schema.members[key]) == schema.members[key] {
        CompleteValueIsFixed(schema, key);
      }
      assert Normalize(schema).members == schema.members;
    }
  }

  lemma {:induction false} CompleteValueIsFixed(schema: Json, key: string)
    requires schema.JsonObject? && Complete(schema) && key in schema.members
    ensures NormalizeValue(key, schema.members[key]) == schema.members[key]
    decreases schema, 0
  {
    var value := schema.members[key];
    if key in NAMED && value.JsonObject? {
      forall name | name in value.members ensures Normalize(value.members[name]) == value.members[name] {
        InnerIsComplete(schema, ByName(key, name));
        CompleteIsFixed(value.members[name]);
      }
      assert NormalizeValue(key, value).members == value.members;
    } else if key in LISTED && value.JsonArray? {
      forall i | 0 <= i < |value.items| ensures Normalize(value.items[i]) == value.items[i] {
        InnerIsComplete(schema, ByIndex(key, i));
        CompleteIsFixed(value.items[i]);
      }
      assert NormalizeValue(key, value).items == value.items;
    } else if key in DIRECT {
      InnerIsComplete(schema, Under(key));
      CompleteIsFixed(value);
    }
  }

  /** The rewrite changes a schema exactly when some reachable object schema lacks `properties`; it is idempotent. */
  lemma FixedIffComplete(schema: Json)
    ensures Normalize(schema) == schema <==> Complete(schema)
    ensures Normalize(Normalize(schema)) == Normalize(schema)
  {
    NormalizedIsComplete(schema);
    CompleteIsFixed(Normalize(schema));
    if Complete(schema) {
      CompleteIsFixed(schema);
    }
  }

  // ----- the rewrite as the source runs it -----

  function WithProperties(schema: Json): map<string, Json>
    requires schema.JsonObject?
  {
    if LacksProperties(schema) then schema.members["properties" := EMPTY] else schema.members
  }

  /** The members once the keywords in `keys` have been entered. */
  ghost function Entered(members: map<string, Json>, keys: seq<string>): map<string, Json> {
    map key | key in members :: if key in keys then NormalizeValue(key, members[key]) else members[key]
  }

  lemma EnterNext(members: map<string, Json>, keys: seq<string>, key: string)
    ensures key in members ==>
              Entered(members, keys + [key]) == Entered(members, keys)[key := NormalizeValue(key, members[key])]
    ensures key !in members ==> Entered(members, keys + [key]) == Entered(members, keys)
  {
    assert forall k :: k in keys + [key] <==> k in keys || k == key;
  }

  lemma {:induction false} EnterAll(schema: Json)
    requires schema.JsonObject?
    ensures Normalize(schema) == JsonObject(Entered(WithProperties(schema), ENTERED))
  {
    var members := WithProperties(schema);
    forall key | key in members
      ensures key in Normalize(schema).members
      ensures Normalize(schema).members[key]
              == if key in ENTERED then NormalizeValue(key, members[key]) else members[key]
    {
      EnteredKeys(key);
    }
  }

  method NormalizeNamed(ghost owner: Json, children: map<string, Json>) returns (rewritten: map<string, Json>)
    requires forall name :: name in children ==> children[name] < owner
    ensures rewritten == map name | name in children :: Normalize(children[name])
    decreases owner, 0
  {
    rewritten := children;
    var names := children.Keys;
    while names != {}
      invariant names <= children.Keys == rewritten.Keys
      invariant forall name :: name in children ==>
                  rewritten[name] == if name in names then children[name] else Normalize(children[name])
      decreases |names|
    {
      var name :| name in names;
      var child := NormalizeRequestSchema(children[name]);
      rewritten := rewritten[name := child];
      names := names - {name};
    }
  }

  method NormalizeListed(ghost owner: Json, children: seq<Json>) returns (rewritten: seq<Json>)
    requires forall i :: 0 <= i < |children| ==> children[i] < owner
    ensures |rewritten| == |children| && forall i :: 0 <= i < |children| ==> rewritten[i] == Normalize(children[i])
    decreases owner, 0
  {
    rewritten := children;
    for i := 0 to |children|
      invariant |rewritten| == |children|
      invariant forall j :: 0 <= j < |children| ==>
          rewritten[j] == if j < i then Normalize(children[j]) else children[j]
    {
      var child := NormalizeRequestSchema(children[i]);
      rewritten := rewritten[i := child];
    }
  }

  lemma NamedValue(key: string, value: Json, children: map<string, Json>)
    requires key in NAMED && value.JsonObject?
    requires children == map name | name in value.members :: Normalize(value.members[name])
    ensures JsonObject(children) == NormalizeValue(key, value)
  {
  }

  lemma ListedValue(key: string, value: Json, children: seq<Json>)
    requires key in LISTED && value.JsonArray? && |children| == |value.items|
    requires forall i :: 0 <= i < |children| ==> children[i] == Normalize(value.items[i])
    ensures JsonArray(children) == NormalizeValue(key, value)
  {
    EnteredKeys(key);
    assert NormalizeValue(key, value).items == children;
  }

  lemma DirectValue(key: string, value: Json)
    requires key in DIRECT
    ensures Normalize(value) == NormalizeValue(key, value)
  {
    EnteredKeys(key);
  }

  /** The first loop, over keywords that hold schemas by name. */
  method EnterNamed(ghost schema: Json, start: map<string, Json>) returns (members: map<string, Json>)
    requires schema.JsonObject? && start == WithProperties(schema)
    ensures members == Entered(start, NAMED)
    decreases schema, 1
  {
    members := start;
    for i := 0 to |NAMED|
      invariant members == Entered(start, [] + NAMED[..i])
    {
      var key := NAMED[i];
      EnterStep(start, [], NAMED, i);
      if key in members && members[key].JsonObject? {
        var children := NormalizeNamed(schema, members[key].members);
        NamedValue(key, start[key], children);
        members := members[key := JsonObject(children)];
      }
    }
    assert [] + NAMED[..|NAMED|] == NAMED;
  }

  /** The second loop, over keywords that hold a list of schemas. */
  method EnterListed(ghost schema: Json, ghost start: map<string, Json>, before: map<string, Json>)
    returns (members: map<string, Json>)
    requires schema.JsonObject? && start == WithProperties(schema) && before == Entered(start, NAMED)
    ensures members == Entered(start, NAMED + LISTED)
    decreases schema, 1
  {
    members := before;
    assert NAMED + LISTED[..0] == NAMED;
    for i := 0 to |LISTED|
      invariant members == Entered(start, NAMED + LISTED[..i])
    {
      var key := LISTED[i];
      EnterStep(start, NAMED, LISTED, i);
      if key in members && members[key].JsonArray? {
        var children := NormalizeListed(schema, members[key].items);
        ListedValue(key, start[key], children);
        members := members[key := JsonArray(children)];
      }
    }
    assert NAMED + LISTED[..|LISTED|] == NAMED + LISTED;
  }

  /** The third loop, over keywords that hold a schema. */
  method EnterDirect(ghost schema: Json, ghost start: map<string, Json>, before: map<string, Json>)
    returns (members: map<string, Json>)
    requires schema.JsonObject? && start == WithProperties(schema) && before == Entered(start, NAMED + LISTED)
    ensures members == Entered(start, ENTERED)
    decreases schema, 1
  {
    members := before;
    assert NAMED + LISTED + DIRECT[..0] == NAMED + LISTED;
    for i := 0 to |DIRECT|
      invariant members == Entered(start, NAMED + LISTED + DIRECT[..i])
    {
      var key := DIRECT[i];
      EnterStep(start, NAMED + LISTED, DIRECT, i);
      if key in members {
        DirectValue(key, start[key]);
        var child := NormalizeRequestSchema(members[key]);
        members := members[key := child];
      }
    }
    assert NAMED + LISTED + DIRECT[..|DIRECT|] == ENTERED;
  }

  method NormalizeRequestSchema(schema: Json) returns (rewritten: Json)
    ensures rewritten == Normalize(schema)
    decreases schema, 2
  {
    if !schema.JsonObject? {
      return schema;
    }
    var members := schema.members;
    if "type" in members && members["type"] == JsonString("object") && "properties" !in members {
      members := members["properties" := JsonObject(map[])];
    }
    ghost var start := members;
    members := EnterNamed(schema, members);
    members := EnterListed(schema, start, members);
    members := EnterDirect(schema, start, members);
    EnterAll(schema);
    rewritten := JsonObject(members);
  }

  /** The next keyword of a list has not been entered yet; entering it replaces its value. */
  lemma EnterStep(start: map<string, Json>, earlier: seq<string>, keys: seq<string>, i: nat)
    requires (earlier, keys) in [([], NAMED), (NAMED, LISTED), (NAMED + LISTED, DIRECT)] && i < |keys|
    ensures var key, before := keys[i], Entered(start, earlier + keys[..i]);
            if key in start
            then key in before && before[key] == start[key]
                 && Entered(start, earlier + keys[..i + 1]) == before[key := NormalizeValue(key, start[key])]
            else key !in before && Entered(start, earlier + keys[..i + 1]) == before
    ensures i + 1 == |keys| ==> earlier + keys[..i + 1] == earlier + keys
  {
    var key := keys[i];
    NotYetEntered(earlier, keys, i);
    EnterNext(start, earlier + keys[..i], key);
    assert earlier + keys[..i + 1] == earlier + keys[..i] + [key];
  }

  lemma NotYetEntered(earlier: seq<string>, keys: seq<string>, i: nat)
    requires (earlier, keys) in [([], NAMED), (NAMED, LISTED), (NAMED + LISTED, DIRECT)] && i < |keys|
    ensures keys[i] !in earlier + keys[..i]
  {
    EnteredKeys(keys[i]);
  }
}
