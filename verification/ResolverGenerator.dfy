/** The generator as it runs: paths pushed into one output array, metadata built in nested loops. */
module ResolverGenerator {
  import opened Outcomes
  import opened Sequences
  import opened GraphqlTypes
  import opened StringOrder
  import opened ResolverSchema
  import opened ArgumentPaths
  import opened PathJson
  import opened EntityResolver

  /** The `output` array. */
  class PathSink {
    var paths: seq<Path>

    constructor ()
      ensures paths == []
    {
      paths := [];
    }
  }

  method CollectArgumentPaths(doc: Document, t: TypeRef, path: Path, visited: set<string>, depth: nat, output: PathSink)
    returns (r: Result<(), PathError>)
    modifies output
    ensures match CollectPaths(doc, t, path, visited, depth)
            case Err(e) => r == Err(e)
            case Ok(paths) => r == Ok(()) && output.paths == old(output.paths) + paths
    decreases MAX_ENTITY_RESOLVER_INPUT_DEPTH + 1 - depth
  {
    if depth > MAX_ENTITY_RESOLVER_INPUT_DEPTH {
      return Err(TooDeep);
    }
    AppendNothing(output.paths);
    match t.of {
      case ListOf(_) => return Ok(());
      case Named(name) =>
        if name == ID {
          output.paths := output.paths + [path];
          return Ok(());
        }
        match InputFieldsOf(doc, name) {
          case None => return Ok(());
          case Some(inputs) =>
            if name in visited {
              return Err(RecursiveInput(name));
            }
            var nextVisited := visited + {name};
            var fields := SortBy(InputName, inputs);
            ghost var before, collected := output.paths, [];
            ghost var all := CollectFields(doc, fields, path, nextVisited, depth);
            PrependedNothing(all);
            assert fields[0..] == fields;
            for i := 0 to |fields|
              invariant output.paths == before + collected
              invariant all == Prepended(collected, CollectFields(doc, fields[i..], path, nextVisited, depth))
            {
              FieldStep(doc, fields, path, nextVisited, depth, collected, i);
              r := CollectArgumentPaths(doc, fields[i].type_, path + [fields[i].name], nextVisited, depth + 1, output);
              if r.Err? {
                return;
              }
              ghost var first := CollectPaths(doc, fields[i].type_, path + [fields[i].name],
                                              nextVisited, depth + 1).value;
              AppendIsAssociative(before, collected, first);
              collected := collected + first;
            }
            AppendNothing(collected);
            return Ok(());
        }
    }
  }

  ghost function Prepended(sofar: seq<Path>, rest: Result<seq<Path>, PathError>): Result<seq<Path>, PathError> {
    match rest
    case Err(e) => Err(e)
    case Ok(paths) => Ok(sofar + paths)
  }

  lemma PrependedNothing(rest: Result<seq<Path>, PathError>)
    ensures Prepended([], rest) == rest
  {
    if rest.Ok? {
      assert [] + rest.value == rest.value;
    }
  }

  /** One more field collected. */
  lemma FieldStep(doc: Document, fields: seq<InputField>, path: Path, visited: set<string>, depth: nat,
                  sofar: seq<Path>, i: nat)
    requires depth <= MAX_ENTITY_RESOLVER_INPUT_DEPTH && i < |fields|
    ensures Prepended(sofar, CollectFields(doc, fields[i..], path, visited, depth))
            == match CollectPaths(doc, fields[i].type_, path + [fields[i].name], visited, depth + 1)
               case Err(e) => Err(e)
               case Ok(first) => Prepended(sofar + first, CollectFields(doc, fields[i + 1..], path, visited, depth))
  {
    assert fields[i..][0] == fields[i] && fields[i..][1..] == fields[i + 1..];
    var first := CollectPaths(doc, fields[i].type_, path + [fields[i].name], visited, depth + 1);
    var rest := CollectFields(doc, fields[i + 1..], path, visited, depth);
    if first.Ok? && rest.Ok? {
      AppendIsAssociative(sofar, first.value, rest.value);
    }
  }

  method CollectAll(doc: Document, args: seq<InputField>) returns (r: Result<seq<Path>, PathError>)
    ensures r == CollectArguments(doc, args)
  {
    var output := new PathSink();
    for i := 0 to |args|
      invariant fresh(output)
      invariant CollectArguments(doc, args[..i]) == Ok(output.paths)
    {
      assert args[..i + 1][..i] == args[..i];
      var pushed := CollectArgumentPaths(doc, args[i].type_, [args[i].name], {}, 0, output);
      if pushed.Err? {
        ArgumentErrorStops(doc, args, i);
        return Err(pushed.error);
      }
    }
    assert args[..|args|] == args;
    return Ok(output.paths);
  }

  lemma {:induction false} ArgumentErrorStops(doc: Document, args: seq<InputField>, i: nat)
    requires i < |args| && CollectArguments(doc, args[..i]).Ok?
    requires CollectPaths(doc, args[i].type_, [args[i].name], {}, 0).Err?
    ensures CollectArguments(doc, args) == Err(CollectPaths(doc, args[i].type_, [args[i].name], {}, 0).error)
    decreases |args|
  {
    if i < |args| - 1 {
      var before := args[..|args| - 1];
      assert before[..i] == args[..i];
      ArgumentErrorStops(doc, before, i);
    }
  }

  method GenerateFields(doc: Document, owner: Decl) returns (r: Generated<seq<FieldEntry>>)
    requires owner.ObjectDecl?
    ensures r == DeriveFields(doc, owner.name, SortBy(FieldName, owner.fields))
  {
    var declared := SortBy(FieldName, owner.fields);
    var fields: seq<FieldEntry> := [];
    for i := 0 to |declared|
      invariant DeriveFields(doc, owner.name, declared[..i]) == Ok(fields)
    {
      var field := declared[i];
      assert declared[..i + 1][..i] == declared[..i];
      if field.type_.of.ListOf? {
        continue;
      }
      var targets := Targets(doc, field.type_.of.name);
      if targets == [] {
        continue;
      }
      var collected := CollectAll(doc, SortBy(InputName, field.args));
      if collected.Err? {
        FieldErrorStops(doc, owner.name, declared, i);
        return Err(GenerationError(owner.name, field.name, collected.error));
      }
      if collected.value == [] {
        continue;
      }
      fields := fields + [FieldEntry(field.name, FieldMetadata(targets, SortBy(Json, collected.value)))];
    }
    assert declared[..|declared|] == declared;
    return Ok(fields);
  }

  lemma {:induction false} FieldErrorStops(doc: Document, owner: string, fields: seq<FieldDecl>, i: nat)
    requires i < |fields| && DeriveFields(doc, owner, fields[..i]).Ok?
    requires DeriveField(doc, owner, fields[i]).Err?
    ensures DeriveFields(doc, owner, fields) == Err(DeriveField(doc, owner, fields[i]).error)
    decreases |fields|
  {
    if i < |fields| - 1 {
      var before := fields[..|fields| - 1];
      assert before[..i] == fields[..i];
      FieldErrorStops(doc, owner, before, i);
    }
  }

  lemma OwnersStep(doc: Document, owners: seq<Decl>, i: nat)
    requires i < |owners| && forall o :: o in owners ==> o.ObjectDecl?
    requires DeriveOwners(doc, owners[..i]).Ok?
    ensures var before := DeriveOwners(doc, owners[..i]).value;
            DeriveOwners(doc, owners[..i + 1])
            == match DeriveFields(doc, owners[i].name, SortBy(FieldName, owners[i].fields))
               case Err(e) => Err(e)
               case Ok(fields) => if fields == [] then Ok(before) else Ok(before + [OwnerEntry(owners[i].name, fields)])
  {
    assert owners[..i + 1][..i] == owners[..i];
  }

  method Generate(doc: Document) returns (r: Generated<seq<OwnerEntry>>)
    ensures r == DeriveEntityResolverSchema(doc)
  {
    SortedOwners(doc);
    var owners := SortBy(DeclName, Owners(doc));
    var metadata: seq<OwnerEntry> := [];
    for i := 0 to |owners|
      invariant forall o :: o in owners[..i] ==> o.ObjectDecl?
      invariant DeriveOwners(doc, owners[..i]) == Ok(metadata)
    {
      assert owners[i] in owners;
      OwnersStep(doc, owners, i);
      var fields := GenerateFields(doc, owners[i]);
      if fields.Err? {
        OwnerErrorStops(doc, owners, i);
        return Err(fields.error);
      }
      if fields.value != [] {
        metadata := metadata + [OwnerEntry(owners[i].name, fields.value)];
      }
    }
    assert owners[..|owners|] == owners;
    return Ok(metadata);
  }

  lemma {:induction false} OwnerErrorStops(doc: Document, owners: seq<Decl>, i: nat)
    requires i < |owners| && forall o :: o in owners ==> o.ObjectDecl?
    requires DeriveOwners(doc, owners[..i]).Ok?
    requires DeriveFields(doc, owners[i].name, SortBy(FieldName, owners[i].fields)).Err?
    ensures DeriveOwners(doc, owners)
            == Err(DeriveFields(doc, owners[i].name, SortBy(FieldName, owners[i].fields)).error)
    decreases |owners|
  {
    if i < |owners| - 1 {
      var before := owners[..|owners| - 1];
      assert before[..i] == owners[..i];
      OwnerErrorStops(doc, before, i);
    }
  }
}
