/** `collectArgumentPaths`: the argument paths of a field that end in an `ID`. */
module ArgumentPaths {
  import opened Outcomes
  import opened Sequences
  import opened GraphqlTypes
  import opened StringOrder
  import opened ResolverSchema

  const MAX_ENTITY_RESOLVER_INPUT_DEPTH := 16

  datatype PathError = TooDeep | RecursiveInput(name: string)

  type Path = seq<string>

  /** The paths `collectArgumentPaths` pushes, in the order it pushes them. */
  function CollectPaths(doc: Document, t: TypeRef, path: Path, visited: set<string>, depth: nat)
    : Result<seq<Path>, PathError>
    decreases MAX_ENTITY_RESOLVER_INPUT_DEPTH + 1 - depth, 1, 0
  {
    if depth > MAX_ENTITY_RESOLVER_INPUT_DEPTH then Err(TooDeep)
    else
      match t.of
      case ListOf(_) => Ok([])
      case Named(name) =>
        if name == ID then Ok([path])
        else
          match InputFieldsOf(doc, name)
          case None => Ok([])
          case Some(fields) =>
            if name in visited then Err(RecursiveInput(name))
            else CollectFields(doc, SortBy(InputName, fields), path, visited + {name}, depth)
  }

  function CollectFields(doc: Document, fields: seq<InputField>, path: Path, visited: set<string>, depth: nat)
    : Result<seq<Path>, PathError>
    requires depth <= MAX_ENTITY_RESOLVER_INPUT_DEPTH
    decreases MAX_ENTITY_RESOLVER_INPUT_DEPTH + 1 - depth, 0, |fields|
  {
    if fields == [] then Ok([])
    else
      match CollectPaths(doc, fields[0].type_, path + [fields[0].name], visited, depth + 1)
      case Err(e) => Err(e)
      case Ok(first) =>
        match CollectFields(doc, fields[1..], path, visited, depth)
        case Err(e) => Err(e)
        case Ok(rest) => Ok(first + rest)
  }

  // ----- the input-type graph, without visited sets or depths -----

  /** The type of a field of a non-list input object. */
  function Step(doc: Document, t: TypeRef, name: string): Option<TypeRef> {
    match t.of
    case ListOf(_) => None
    case Named(typeName) =>
      match InputFieldsOf(doc, typeName)
      case None => None
      case Some(fields) =>
        match Find<InputField>(InputName, fields, name)
        case None => None
        case Some(field) => Some(field.type_)
  }

  /** The input object `t` names declares a field `name` of type `u`. */
  ghost predicate HasInput(doc: Document, t: TypeRef, name: string, u: TypeRef) {
    t.of.Named? &&
    exists d, f :: d in doc && d.InputDecl? && d.name == t.of.name && f in d.inputs && f.name == name && f.type_ == u
  }

  /** Steps are exactly the declared fields of input objects, and never cross a list. */
  lemma StepIffInput(doc: Document, t: TypeRef, name: string, u: TypeRef)
    requires ValidDocument(doc)
    ensures Step(doc, t, name) == Some(u) <==> HasInput(doc, t, name, u)
  {
    if t.of.Named? {
      FindCorrect(DeclName, doc, t.of.name);
      if Step(doc, t, name) == Some(u) {
        var fields := InputFieldsOf(doc, t.of.name).value;
        FindCorrect(InputName, fields, name);
        assert InputDecl(t.of.name, fields) in doc && Find(InputName, fields, name).value in fields;
      }
      if HasInput(doc, t, name, u) {
        var d, f :| d in doc && d.InputDecl? && d.name == t.of.name
                    && f in d.inputs && f.name == name && f.type_ == u;
        FindMember(DeclName, doc, d);
        FindMember(InputName, d.inputs, f);
      }
    }
  }

  /** The type at the end of a walk along field names; `None` if some step does not exist. */
  function Walk(doc: Document, t: TypeRef, steps: Path): Option<TypeRef>
    decreases |steps|
  {
    if steps == [] then Some(t)
    else
      match Step(doc, t, steps[0])
      case None => None
      case Some(next) => Walk(doc, next, steps[1..])
  }

  ghost predicate HasWalk(doc: Document, t: TypeRef, length: nat) {
    exists steps :: |steps| == length && Walk(doc, t, steps).Some?
  }

  /** The steps lead to an `ID` that is not inside a list. */
  predicate LeadsToId(doc: Document, t: TypeRef, steps: Path) {
    Walk(doc, t, steps).Some? && Walk(doc, t, steps).value.of == Named("ID")
  }

  lemma {:induction false} WalkConcat(doc: Document, t: TypeRef, first: Path, second: Path)
    requires Walk(doc, t, first).Some?
    ensures Walk(doc, t, first + second) == Walk(doc, Walk(doc, t, first).value, second)
    decreases |first|
  {
    if first == [] {
      assert first + second == second;
    } else {
      assert (first + second)[1..] == first[1..] + second;
      WalkConcat(doc, Step(doc, t, first[0]).value, first[1..], second);
    }
  }

  lemma WalkPrefix(doc: Document, t: TypeRef, steps: Path, length: nat)
    requires Walk(doc, t, steps).Some? && length <= |steps|
    ensures HasWalk(doc, t, length)
  {
    PrefixWalks(doc, t, steps, length);
    assert Walk(doc, t, steps[..length]).Some?;
  }

  lemma {:induction false} PrefixWalks(doc: Document, t: TypeRef, steps: Path, length: nat)
    requires Walk(doc, t, steps).Some? && length <= |steps|
    ensures Walk(doc, t, steps[..length]).Some?
    decreases length
  {
    if length > 0 {
      assert steps[..length][1..] == steps[1..][..length - 1];
      PrefixWalks(doc, Step(doc, t, steps[0]).value, steps[1..], length - 1);
    }
  }

  /** A walk back to the same type can be repeated to any length. */
  lemma CyclePumps(doc: Document, t: TypeRef, cycle: Path, length: nat)
    requires cycle != [] && Walk(doc, t, cycle).Some? && Walk(doc, t, cycle).value.of == t.of
    ensures HasWalk(doc, t, length)
  {
    var steps := Repeat(doc, t, cycle, length);
    WalkPrefix(doc, t, steps, length);
  }

  lemma {:induction false} Repeat(doc: Document, t: TypeRef, cycle: Path, length: nat) returns (steps: Path)
    requires cycle != [] && Walk(doc, t, cycle).Some? && Walk(doc, t, cycle).value.of == t.of
    ensures |steps| >= length && Walk(doc, t, steps).Some?
    decreases length
  {
    if length == 0 {
      steps := [];
    } else {
      var rest := Repeat(doc, t, cycle, length - 1);
      steps := cycle + rest;
      WalkConcat(doc, t, cycle, rest);
      SameBareWalks(doc, t, Walk(doc, t, cycle).value, rest);
    }
  }

  lemma SameBareWalks(doc: Document, t: TypeRef, u: TypeRef, steps: Path)
    requires t.of == u.of && Walk(doc, t, steps).Some?
    ensures Walk(doc, u, steps).Some?
  {
  }

  /** Each field the generator visits is a step. */
  lemma VisitedIsStep(doc: Document, t: TypeRef, field: InputField)
    requires ValidDocument(doc) && t.of.Named? && InputFieldsOf(doc, t.of.name).Some?
    requires field in SortBy(InputName, InputFieldsOf(doc, t.of.name).value)
    ensures Step(doc, t, field.name) == Some(field.type_)
  {
    var fields := InputFieldsOf(doc, t.of.name).value;
    SortCorrect(InputName, fields);
    FindCorrect(DeclName, doc, t.of.name);
    FindMember(InputName, fields, field);
  }

  /** Each step is a field the generator visits. */
  lemma StepIsVisited(doc: Document, t: TypeRef, name: string) returns (field: InputField)
    requires ValidDocument(doc) && Step(doc, t, name).Some?
    ensures t.of.Named? && InputFieldsOf(doc, t.of.name).Some? && t.of.name != ID
    ensures field in SortBy(InputName, InputFieldsOf(doc, t.of.name).value)
    ensures field.name == name && Step(doc, t, name) == Some(field.type_)
  {
    var fields := InputFieldsOf(doc, t.of.name).value;
    FindCorrect(DeclName, doc, t.of.name);
    FindCorrect(InputName, fields, name);
    field := Find(InputName, fields, name).value;
    SortCorrect(InputName, fields);
  }

  // ----- when it throws -----

  /** Returning normally bounds every walk. */
  lemma {:induction false} OkBoundsWalks(doc: Document, t: TypeRef, path: Path, visited: set<string>, depth: nat,
      steps: Path)
    requires depth <= MAX_ENTITY_RESOLVER_INPUT_DEPTH + 1
    requires ValidDocument(doc)
    requires CollectPaths(doc, t, path, visited, depth).Ok?
    requires Walk(doc, t, steps).Some?
    ensures |steps| <= MAX_ENTITY_RESOLVER_INPUT_DEPTH - depth
    decreases MAX_ENTITY_RESOLVER_INPUT_DEPTH + 1 - depth
  {
    if steps != [] {
      var field := StepIsVisited(doc, t, steps[0]);
      var name := t.of.name;
      var fields := InputFieldsOf(doc, name).value;
      FieldsOk(doc, SortBy(InputName, fields), path, visited + {name}, depth, field);
      OkBoundsWalks(doc, field.type_, path + [field.name], visited + {name}, depth + 1, steps[1..]);
    }
  }

  lemma {:induction false} FieldsOk(doc: Document, fields: seq<InputField>, path: Path, visited: set<string>,
      depth: nat, field: InputField)
    requires depth <= MAX_ENTITY_RESOLVER_INPUT_DEPTH && field in fields
    requires CollectFields(doc, fields, path, visited, depth).Ok?
    ensures CollectPaths(doc, field.type_, path + [field.name], visited, depth + 1).Ok?
    ensures forall p :: p in CollectPaths(doc, field.type_, path + [field.name], visited, depth + 1).value ==>
                          p in CollectFields(doc, fields, path, visited, depth).value
    decreases |fields|
  {
    if fields[0] != field {
      FieldsOk(doc, fields[1..], path, visited, depth, field);
    }
  }

  /** Each visited input object lies on a walk to `t`. */
  ghost predicate VisitedLeadTo(doc: Document, visited: set<string>, t: TypeRef) {
    forall v :: v in visited ==>
      exists steps :: steps != [] && Walk(doc, Nullable(Named(v)), steps).Some?
                      && Walk(doc, Nullable(Named(v)), steps).value.of == t.of
  }

  /** Throwing exhibits a walk past the depth limit. */
  lemma {:induction false} ErrHasLongWalk(doc: Document, t: TypeRef, path: Path, visited: set<string>, depth: nat)
    requires ValidDocument(doc) && depth <= MAX_ENTITY_RESOLVER_INPUT_DEPTH + 1
    requires VisitedLeadTo(doc, visited, t)
    requires CollectPaths(doc, t, path, visited, depth).Err?
    ensures HasWalk(doc, t, MAX_ENTITY_RESOLVER_INPUT_DEPTH + 1 - depth)
    decreases MAX_ENTITY_RESOLVER_INPUT_DEPTH + 1 - depth
  {
    if depth > MAX_ENTITY_RESOLVER_INPUT_DEPTH {
      assert Walk(doc, t, []).Some?;
    } else {
      var name := t.of.name;
      var fields := InputFieldsOf(doc, name).value;
      if name in visited {
        var cycle :| cycle != [] && Walk(doc, Nullable(Named(name)), cycle).Some?
                     && Walk(doc, Nullable(Named(name)), cycle).value.of == t.of;
        SameBareSteps(doc, Nullable(Named(name)), t, cycle);
        CyclePumps(doc, t, cycle, MAX_ENTITY_RESOLVER_INPUT_DEPTH + 1 - depth);
      } else {
        var field := FailingField(doc, SortBy(InputName, fields), path, visited + {name}, depth);
        VisitedIsStep(doc, t, field);
        VisitedStep(doc, t, field.name, visited);
        ErrHasLongWalk(doc, field.type_, path + [field.name], visited + {name}, depth + 1);
        LongerWalk(doc, t, field.name, MAX_ENTITY_RESOLVER_INPUT_DEPTH - depth);
      }
    }
  }

  lemma LongerWalk(doc: Document, t: TypeRef, name: string, length: nat)
    requires Step(doc, t, name).Some? && HasWalk(doc, Step(doc, t, name).value, length)
    ensures HasWalk(doc, t, length + 1)
  {
    var rest :| |rest| == length && Walk(doc, Step(doc, t, name).value, rest).Some?;
    var steps := [name] + rest;
    assert steps[1..] == rest;
    assert Walk(doc, t, steps).Some?;
  }

  lemma SameBareSteps(doc: Document, t: TypeRef, u: TypeRef, steps: Path)
    requires t.of == u.of && steps != []
    ensures Walk(doc, t, steps) == Walk(doc, u, steps)
  {
  }

  lemma VisitedStep(doc: Document, t: TypeRef, name: string, visited: set<string>)
    requires t.of.Named? && Step(doc, t, name).Some? && VisitedLeadTo(doc, visited, t)
    ensures VisitedLeadTo(doc, visited + {t.of.name}, Step(doc, t, name).value)
  {
    var next := Step(doc, t, name).value;
    forall v | v in visited + {t.of.name}
      ensures exists steps :: steps != [] && Walk(doc, Nullable(Named(v)), steps).Some?
                              && Walk(doc, Nullable(Named(v)), steps).value.of == next.of
    {
      var start := Nullable(Named(v));
      if v == t.of.name {
        SameBareSteps(doc, start, t, [name]);
        assert [name][1..] == [];
        assert Walk(doc, start, [name]) == Some(next);
      } else {
        var steps :| steps != [] && Walk(doc, start, steps).Some? && Walk(doc, start, steps).value.of == t.of;
        WalkConcat(doc, start, steps, [name]);
        SameBareSteps(doc, Walk(doc, start, steps).value, t, [name]);
        assert [name][1..] == [];
        assert Walk(doc, start, steps + [name]) == Some(next);
      }
    }
  }

  lemma {:induction false} FailingField(doc: Document, fields: seq<InputField>, path: Path, visited: set<string>,
      depth: nat)
    returns (field: InputField)
    requires depth <= MAX_ENTITY_RESOLVER_INPUT_DEPTH
    requires CollectFields(doc, fields, path, visited, depth).Err?
    ensures field in fields
    ensures CollectPaths(doc, field.type_, path + [field.name], visited, depth + 1).Err?
    decreases |fields|
  {
    field := fields[0];
    if CollectPaths(doc, field.type_, path + [field.name], visited, depth + 1).Ok? {
      field := FailingField(doc, fields[1..], path, visited, depth);
    }
  }

  /** It throws exactly when some walk through non-list input objects takes more than sixteen steps. */
  lemma ThrowsIffLongWalk(doc: Document, t: TypeRef, path: Path)
    requires ValidDocument(doc)
    ensures CollectPaths(doc, t, path, {}, 0).Err? <==> HasWalk(doc, t, 17)
  {
    if CollectPaths(doc, t, path, {}, 0).Err? {
      ErrHasLongWalk(doc, t, path, {}, 0);
    } else if HasWalk(doc, t, 17) {
      var steps :| |steps| == 17 && Walk(doc, t, steps).Some?;
      OkBoundsWalks(doc, t, path, {}, 0, steps);
      assert false;
    }
  }

  /** A cycle reachable without crossing a list always makes it throw, never return partial paths. */
  lemma CyclesThrow(doc: Document, t: TypeRef, path: Path, reach: Path, cycle: Path)
    requires ValidDocument(doc)
    requires Walk(doc, t, reach).Some? && cycle != []
    requires Walk(doc, Walk(doc, t, reach).value, cycle).Some?
    requires Walk(doc, Walk(doc, t, reach).value, cycle).value.of == Walk(doc, t, reach).value.of
    ensures CollectPaths(doc, t, path, {}, 0).Err?
  {
    var u := Walk(doc, t, reach).value;
    var steps := Repeat(doc, u, cycle, 17);
    WalkConcat(doc, t, reach, steps);
    WalkPrefix(doc, t, reach + steps, 17);
    ThrowsIffLongWalk(doc, t, path);
  }

  /** The "recursive input type" error names a type that really reaches itself. */
  lemma {:induction false} RecursionIsReal(doc: Document, t: TypeRef, path: Path, visited: set<string>, depth: nat,
      name: string)
    returns (cycle: Path)
    requires ValidDocument(doc) && depth <= MAX_ENTITY_RESOLVER_INPUT_DEPTH + 1
    requires VisitedLeadTo(doc, visited, t)
    requires CollectPaths(doc, t, path, visited, depth) == Err(RecursiveInput(name))
    ensures cycle != [] && Walk(doc, Nullable(Named(name)), cycle).Some?
    ensures Walk(doc, Nullable(Named(name)), cycle).value.of == Named(name)
    decreases MAX_ENTITY_RESOLVER_INPUT_DEPTH + 1 - depth
  {
    var own := t.of.name;
    if own in visited {
      cycle :| cycle != [] && Walk(doc, Nullable(Named(own)), cycle).Some?
               && Walk(doc, Nullable(Named(own)), cycle).value.of == t.of;
    } else {
      var fields := InputFieldsOf(doc, own).value;
      var field := FieldWithError(doc, SortBy(InputName, fields), path, visited + {own}, depth);
      VisitedIsStep(doc, t, field);
      VisitedStep(doc, t, field.name, visited);
      cycle := RecursionIsReal(doc, field.type_, path + [field.name], visited + {own}, depth + 1, name);
    }
  }

  lemma {:induction false} FieldWithError(doc: Document, fields: seq<InputField>, path: Path, visited: set<string>,
      depth: nat)
    returns (field: InputField)
    requires depth <= MAX_ENTITY_RESOLVER_INPUT_DEPTH
    requires CollectFields(doc, fields, path, visited, depth).Err?
    ensures field in fields
    ensures CollectPaths(doc, field.type_, path + [field.name], visited, depth + 1)
            == CollectFields(doc, fields, path, visited, depth)
    decreases |fields|
  {
    field := fields[0];
    if CollectPaths(doc, field.type_, path + [field.name], visited, depth + 1).Ok? {
      field := FieldWithError(doc, fields[1..], path, visited, depth);
    }
  }

  // ----- what it collects -----

  lemma {:induction false} CollectedLeadToId(doc: Document, t: TypeRef, path: Path, visited: set<string>, depth: nat,
      p: Path)
    returns (steps: Path)
    requires ValidDocument(doc) && depth <= MAX_ENTITY_RESOLVER_INPUT_DEPTH + 1
    requires CollectPaths(doc, t, path, visited, depth).Ok?
    requires p in CollectPaths(doc, t, path, visited, depth).value
    ensures p == path + steps && LeadsToId(doc, t, steps)
    decreases MAX_ENTITY_RESOLVER_INPUT_DEPTH + 1 - depth
  {
    var name := t.of.name;
    if name == ID {
      steps := [];
    } else {
      var fields := InputFieldsOf(doc, name).value;
      var field := FieldOf(doc, SortBy(InputName, fields), path, visited + {name}, depth, p);
      VisitedIsStep(doc, t, field);
      var rest := CollectedLeadToId(doc, field.type_, path + [field.name], visited + {name}, depth + 1, p);
      steps := [field.name] + rest;
      AppendIsAssociative(path, [field.name], rest);
      LeadsFurther(doc, t, field.name, rest);
    }
  }

  lemma LeadsFurther(doc: Document, t: TypeRef, name: string, rest: Path)
    requires Step(doc, t, name).Some? && LeadsToId(doc, Step(doc, t, name).value, rest)
    ensures LeadsToId(doc, t, [name] + rest)
  {
    assert ([name] + rest)[1..] == rest;
  }

  lemma {:induction false} FieldOf(doc: Document, fields: seq<InputField>, path: Path, visited: set<string>,
      depth: nat, p: Path)
    returns (field: InputField)
    requires depth <= MAX_ENTITY_RESOLVER_INPUT_DEPTH
    requires CollectFields(doc, fields, path, visited, depth).Ok?
    requires p in CollectFields(doc, fields, path, visited, depth).value
    ensures field in fields
    ensures CollectPaths(doc, field.type_, path + [field.name], visited, depth + 1).Ok?
    ensures p in CollectPaths(doc, field.type_, path + [field.name], visited, depth + 1).value
    decreases |fields|
  {
    field := fields[0];
    if p !in CollectPaths(doc, field.type_, path + [field.name], visited, depth + 1).value {
      field := FieldOf(doc, fields[1..], path, visited, depth, p);
    }
  }

  lemma {:induction false} IdStepsAreCollected(doc: Document, t: TypeRef, path: Path, visited: set<string>,
      depth: nat, steps: Path)
    requires ValidDocument(doc) && depth <= MAX_ENTITY_RESOLVER_INPUT_DEPTH + 1
    requires CollectPaths(doc, t, path, visited, depth).Ok?
    requires LeadsToId(doc, t, steps)
    ensures path + steps in CollectPaths(doc, t, path, visited, depth).value
    decreases MAX_ENTITY_RESOLVER_INPUT_DEPTH + 1 - depth
  {
    if steps == [] {
      assert path + steps == path;
    } else {
      var field := StepIsVisited(doc, t, steps[0]);
      var name := t.of.name;
      var fields := InputFieldsOf(doc, name).value;
      FieldsOk(doc, SortBy(InputName, fields), path, visited + {name}, depth, field);
      IdStepsAreCollected(doc, field.type_, path + [field.name], visited + {name}, depth + 1, steps[1..]);
      assert steps == [field.name] + steps[1..];
      AppendIsAssociative(path, [field.name], steps[1..]);
    }
  }

  /** Returning normally, it has collected exactly the paths to an `ID` leaf, crossing no list. */
  lemma CollectsExactlyIdPaths(doc: Document, t: TypeRef, argument: string, p: Path)
    requires ValidDocument(doc) && CollectPaths(doc, t, [argument], {}, 0).Ok?
    ensures p in CollectPaths(doc, t, [argument], {}, 0).value <==>
            p != [] && p[0] == argument && LeadsToId(doc, t, p[1..])
  {
    if p in CollectPaths(doc, t, [argument], {}, 0).value {
      var steps := CollectedLeadToId(doc, t, [argument], {}, 0, p);
      assert p[1..] == steps;
    }
    if p != [] && p[0] == argument && LeadsToId(doc, t, p[1..]) {
      IdStepsAreCollected(doc, t, [argument], {}, 0, p[1..]);
      assert [argument] + p[1..] == p;
    }
  }

  ghost predicate NoRepeats(paths: seq<Path>) {
    forall i, j :: 0 <= i < j < |paths| ==> paths[i] != paths[j]
  }

  /** Each collected path extends `path`. */
  lemma CollectedExtend(doc: Document, t: TypeRef, path: Path, visited: set<string>, depth: nat)
    requires ValidDocument(doc) && depth <= MAX_ENTITY_RESOLVER_INPUT_DEPTH + 1
    requires CollectPaths(doc, t, path, visited, depth).Ok?
    ensures forall p :: p in CollectPaths(doc, t, path, visited, depth).value ==> path <= p
  {
    forall p | p in CollectPaths(doc, t, path, visited, depth).value ensures path <= p {
      var steps := CollectedLeadToId(doc, t, path, visited, depth, p);
    }
  }

  /** Each path is collected once. */
  lemma {:induction false} CollectsWithoutRepeats(doc: Document, t: TypeRef, path: Path, visited: set<string>,
      depth: nat)
    requires ValidDocument(doc) && depth <= MAX_ENTITY_RESOLVER_INPUT_DEPTH + 1
    requires CollectPaths(doc, t, path, visited, depth).Ok?
    ensures NoRepeats(CollectPaths(doc, t, path, visited, depth).value)
    decreases MAX_ENTITY_RESOLVER_INPUT_DEPTH + 1 - depth, 1, 0
  {
    if t.of.Named? && t.of.name != ID && InputFieldsOf(doc, t.of.name).Some? {
      var name := t.of.name;
      var fields := InputFieldsOf(doc, name).value;
      FindCorrect(DeclName, doc, name);
      SortCorrect(InputName, fields);
      FieldsWithoutRepeats(doc, SortBy(InputName, fields), path, visited + {name}, depth);
    }
  }

  lemma {:induction false} FieldsWithoutRepeats(doc: Document, fields: seq<InputField>, path: Path,
      visited: set<string>, depth: nat)
    requires ValidDocument(doc) && depth <= MAX_ENTITY_RESOLVER_INPUT_DEPTH
    requires Increasing(InputName, fields)
    requires CollectFields(doc, fields, path, visited, depth).Ok?
    ensures NoRepeats(CollectFields(doc, fields, path, visited, depth).value)
    decreases MAX_ENTITY_RESOLVER_INPUT_DEPTH + 1 - depth, 0, |fields|
  {
    if fields != [] {
      var head, rest := fields[0], fields[1..];
      CollectsWithoutRepeats(doc, head.type_, path + [head.name], visited, depth + 1);
      FieldsWithoutRepeats(doc, rest, path, visited, depth);
      var first := CollectPaths(doc, head.type_, path + [head.name], visited, depth + 1).value;
      var others := CollectFields(doc, rest, path, visited, depth).value;
      forall p, q | p in first && q in others ensures p != q {
        CollectedExtend(doc, head.type_, path + [head.name], visited, depth + 1);
        var field := FieldOf(doc, rest, path, visited, depth, q);
        CollectedExtend(doc, field.type_, path + [field.name], visited, depth + 1);
        var k :| 0 <= k < |rest| && rest[k] == field;
        CompareEqual(head.name, field.name);
        assert Less(InputName(fields[0]), InputName(fields[k + 1]));
        assert p[|path|] == head.name && q[|path|] == field.name;
      }
      ConcatWithoutRepeats(first, others);
    }
  }

  lemma ConcatWithoutRepeats(a: seq<Path>, b: seq<Path>)
    requires NoRepeats(a) && NoRepeats(b)
    requires forall p, q :: p in a && q in b ==> p != q
    ensures NoRepeats(a + b)
  {
    forall i, j | 0 <= i < j < |a + b| ensures (a + b)[i] != (a + b)[j] {
      if i < |a| <= j {
        assert (a + b)[i] in a && (a + b)[j] in b;
      }
    }
  }
}
