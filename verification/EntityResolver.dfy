/** `deriveEntityResolverSchema`: which fields resolve which entities, through which argument paths. */
module EntityResolver {
  import opened Outcomes
  import opened GraphqlTypes
  import opened StringOrder
  import opened ResolverSchema
  import opened ArgumentPaths
  import opened PathJson

  datatype FieldMetadata = FieldMetadata(targets: seq<string>, argumentPaths: seq<Path>)

  datatype FieldEntry = FieldEntry(field: string, metadata: FieldMetadata)

  datatype OwnerEntry = OwnerEntry(owner: string, fields: seq<FieldEntry>)

  /** The thrown error: the owner field being generated, and what went wrong below it. */
  datatype GenerationError = GenerationError(owner: string, field: string, cause: PathError)

  type Generated<T> = Result<T, GenerationError>

  predicate IsKeyable(doc: Document, name: string) {
    match Find<Decl>(DeclName, doc, name)
    case Some(ObjectDecl(_, fields, _)) =>
      (match Find<FieldDecl>(FieldName, fields, "id")
       case Some(id) => id.type_ == NonNull(Named(ID))
       case None => false)
    case _ => false
  }

  function KeyableImplementers(doc: Document, decls: seq<Decl>, interface: string): seq<string> {
    if decls == [] then []
    else
      (if decls[0].ObjectDecl? && interface in decls[0].interfaces && IsKeyable(doc, decls[0].name)
       then [decls[0].name] else [])
      + KeyableImplementers(doc, decls[1..], interface)
  }

  function KeyableMembers(doc: Document, members: seq<string>): seq<string> {
    if members == [] then []
    else (if IsKeyable(doc, members[0]) then [members[0]] else []) + KeyableMembers(doc, members[1..])
  }

  /** The keyable object types a return type can produce, in name order. */
  function Targets(doc: Document, returnType: string): seq<string> {
    match Find<Decl>(DeclName, doc, returnType)
    case Some(ObjectDecl(name, _, _)) => if IsKeyable(doc, name) then [name] else []
    case Some(InterfaceDecl(name, _, _)) => SortBy(Itself, KeyableImplementers(doc, doc, name))
    case Some(UnionDecl(_, members)) => SortBy(Itself, KeyableMembers(doc, members))
    case _ => []
  }

  function CollectArguments(doc: Document, args: seq<InputField>): Result<seq<Path>, PathError> {
    if args == [] then Ok([])
    else
      var last := args[|args| - 1];
      match CollectArguments(doc, args[..|args| - 1])
      case Err(e) => Err(e)
      case Ok(before) =>
        match CollectPaths(doc, last.type_, [last.name], {}, 0)
        case Err(e) => Err(e)
        case Ok(paths) => Ok(before + paths)
  }

  /** The metadata of one field, if it resolves entities at all. */
  function DeriveField(doc: Document, owner: string, field: FieldDecl): Generated<Option<FieldMetadata>> {
    match field.type_.of
    case ListOf(_) => Ok(None)
    case Named(returnType) =>
      var targets := Targets(doc, returnType);
      if targets == [] then Ok(None)
      else
        match CollectArguments(doc, SortBy(InputName, field.args))
        case Err(e) => Err(GenerationError(owner, field.name, e))
        case Ok(paths) =>
          if paths == [] then Ok(None) else Ok(Some(FieldMetadata(targets, SortBy(Json, paths))))
  }

  function DeriveFields(doc: Document, owner: string, fields: seq<FieldDecl>): Generated<seq<FieldEntry>> {
    if fields == [] then Ok([])
    else
      var last := fields[|fields| - 1];
      match DeriveFields(doc, owner, fields[..|fields| - 1])
      case Err(e) => Err(e)
      case Ok(before) =>
        match DeriveField(doc, owner, last)
        case Err(e) => Err(e)
        case Ok(None) => Ok(before)
        case Ok(Some(metadata)) => Ok(before + [FieldEntry(last.name, metadata)])
  }

  predicate IsOwner(d: Decl) {
    d.ObjectDecl? && !("__" <= d.name)
  }

  function Owners(decls: seq<Decl>): seq<Decl> {
    if decls == [] then []
    else (if IsOwner(decls[0]) then [decls[0]] else []) + Owners(decls[1..])
  }

  function DeriveOwners(doc: Document, owners: seq<Decl>): Generated<seq<OwnerEntry>>
    requires forall o :: o in owners ==> o.ObjectDecl?
  {
    if owners == [] then Ok([])
    else
      var last := owners[|owners| - 1];
      match DeriveOwners(doc, owners[..|owners| - 1])
      case Err(e) => Err(e)
      case Ok(before) =>
        match DeriveFields(doc, last.name, SortBy(FieldName, last.fields))
        case Err(e) => Err(e)
        case Ok(fields) => if fields == [] then Ok(before) else Ok(before + [OwnerEntry(last.name, fields)])
  }

  lemma {:induction false} OwnersAre(decls: seq<Decl>)
    ensures forall d :: d in Owners(decls) <==> d in decls && IsOwner(d)
    ensures DistinctKeys(DeclName, decls) ==> DistinctKeys(DeclName, Owners(decls))
  {
    if decls != [] {
      var head, rest := decls[0], decls[1..];
      OwnersAre(rest);
      assert decls == [head] + rest;
      if DistinctKeys(DeclName, decls) {
        DistinctTail(DeclName, decls);
        if IsOwner(head) {
          forall i, j | 0 <= i < j < |Owners(decls)|
            ensures DeclName(Owners(decls)[i]) != DeclName(Owners(decls)[j])
          {
            assert Owners(decls)[j] == Owners(rest)[j - 1];
            assert Owners(decls)[j] in Owners(rest);
            if i > 0 {
              assert Owners(decls)[i] == Owners(rest)[i - 1];
            }
          }
        }
      }
    }
  }

  lemma SortedOwners(doc: Document)
    ensures forall d :: d in SortBy(DeclName, Owners(doc)) <==> d in doc && IsOwner(d)
  {
    OwnersAre(doc);
    SortCorrect(DeclName, Owners(doc));
  }

  function DeriveEntityResolverSchema(doc: Document): Generated<seq<OwnerEntry>> {
    SortedOwners(doc);
    DeriveOwners(doc, SortBy(DeclName, Owners(doc)))
  }

  // ----- what the metadata says -----

  lemma {:induction false} ImplementersAre(doc: Document, decls: seq<Decl>, interface: string)
    ensures forall n :: n in KeyableImplementers(doc, decls, interface) <==>
              IsKeyable(doc, n) && exists d :: d in decls && d.ObjectDecl? && d.name == n && interface in d.interfaces
    ensures DistinctKeys(DeclName, decls) ==> DistinctKeys(Itself, KeyableImplementers(doc, decls, interface))
  {
    if decls != [] {
      var head, rest := decls[0], decls[1..];
      ImplementersAre(doc, rest, interface);
      forall n ensures n in KeyableImplementers(doc, decls, interface) <==>
          IsKeyable(doc, n) && exists d :: d in decls && d.ObjectDecl? && d.name == n && interface in d.interfaces
      {
        assert forall d :: d in decls <==> d == head || d in rest;
      }
      if DistinctKeys(DeclName, decls) {
        DistinctTail(DeclName, decls);
        PrependDistinct(head.name, KeyableImplementers(doc, rest, interface));
      }
    }
  }

  lemma PrependDistinct(head: string, rest: seq<string>)
    requires DistinctKeys(Itself, rest)
    ensures head !in rest ==> DistinctKeys(Itself, [head] + rest)
    ensures [] + rest == rest
  {
  }

  lemma {:induction false} MembersAre(doc: Document, members: seq<string>)
    ensures forall n :: n in KeyableMembers(doc, members) <==> n in members && IsKeyable(doc, n)
    ensures DistinctKeys(Itself, members) ==> DistinctKeys(Itself, KeyableMembers(doc, members))
  {
    if members != [] {
      var head, rest := members[0], members[1..];
      MembersAre(doc, rest);
      assert members == [head] + rest;
      if DistinctKeys(Itself, members) {
        DistinctTail(Itself, members);
        PrependDistinct(head, KeyableMembers(doc, rest));
      }
    }
  }

  /** An object type named `name` has a field `id: ID!`. */
  ghost predicate HasKeyField(doc: Document, name: string) {
    exists d, f :: d in doc && d.ObjectDecl? && d.name == name
                   && f in d.fields && f.name == "id" && f.type_ == NonNull(Named("ID"))
  }

  lemma KeyableIffKeyField(doc: Document, name: string)
    requires ValidDocument(doc)
    ensures IsKeyable(doc, name) <==> HasKeyField(doc, name)
  {
    FindCorrect(DeclName, doc, name);
    if IsKeyable(doc, name) {
      var d := Find<Decl>(DeclName, doc, name).value;
      FindCorrect(FieldName, d.fields, "id");
      assert Find<FieldDecl>(FieldName, d.fields, "id").value in d.fields;
    }
    if HasKeyField(doc, name) {
      var d, f :| d in doc && d.ObjectDecl? && d.name == name
                  && f in d.fields && f.name == "id" && f.type_ == NonNull(Named("ID"));
      FindMember(DeclName, doc, d);
      FindMember(FieldName, d.fields, f);
    }
  }

  /** A value of type `d` can be an object of type `name`. */
  ghost predicate CanBe(doc: Document, d: Decl, name: string) {
    match d
    case ObjectDecl(own, _, _) => name == own
    case InterfaceDecl(own, _, _) => exists e :: e in doc && e.ObjectDecl? && e.name == name && own in e.interfaces
    case UnionDecl(_, members) => name in members
    case _ => false
  }

  /** The object types `returnType` can produce. */
  ghost predicate Produces(doc: Document, returnType: string, name: string) {
    exists d :: d in doc && d.name == returnType && CanBe(doc, d, name)
  }

  lemma ProducesFound(doc: Document, returnType: string, name: string)
    requires ValidDocument(doc)
    ensures Produces(doc, returnType, name) <==>
            Find(DeclName, doc, returnType).Some? && CanBe(doc, Find(DeclName, doc, returnType).value, name)
  {
    FindCorrect(DeclName, doc, returnType);
    if Produces(doc, returnType, name) {
      var d :| d in doc && d.name == returnType && CanBe(doc, d, name);
      FindMember(DeclName, doc, d);
    }
  }

  /** Targets are exactly the keyable types the field can produce, each once, in code-unit order. */
  lemma TargetsAreExact(doc: Document, returnType: string)
    requires ValidDocument(doc)
    ensures forall n :: n in Targets(doc, returnType) <==> Produces(doc, returnType, n) && HasKeyField(doc, n)
    ensures Increasing(Itself, Targets(doc, returnType))
  {
    FindCorrect(DeclName, doc, returnType);
    forall n
      ensures IsKeyable(doc, n) <==> HasKeyField(doc, n)
      ensures Produces(doc, returnType, n) <==>
              Find(DeclName, doc, returnType).Some? && CanBe(doc, Find(DeclName, doc, returnType).value, n)
    {
      KeyableIffKeyField(doc, n);
      ProducesFound(doc, returnType, n);
    }
    match Find<Decl>(DeclName, doc, returnType)
    case Some(InterfaceDecl(name, _, _)) =>
      ImplementersAre(doc, doc, name);
      SortCorrect(Itself, KeyableImplementers(doc, doc, name));
    case Some(UnionDecl(_, members)) =>
      MembersAre(doc, members);
      SortCorrect(Itself, KeyableMembers(doc, members));
    case _ =>
  }

  /** The path starts with one of the arguments and leads from its type to an `ID`, crossing no list. */
  ghost predicate IsIdPath(doc: Document, args: seq<InputField>, p: Path) {
    p != [] && exists a :: a in args && p[0] == a.name && LeadsToId(doc, a.type_, p[1..])
  }

  lemma {:induction false} ArgumentsAreExact(doc: Document, args: seq<InputField>)
    requires ValidDocument(doc) && DistinctKeys(InputName, args)
    requires CollectArguments(doc, args).Ok?
    ensures forall p :: p in CollectArguments(doc, args).value <==> IsIdPath(doc, args, p)
    ensures NoRepeats(CollectArguments(doc, args).value)
  {
    if args != [] {
      var n := |args| - 1;
      var before, last := args[..n], args[n];
      assert DistinctKeys(InputName, before);
      ArgumentsAreExact(doc, before);
      var paths := CollectPaths(doc, last.type_, [last.name], {}, 0).value;
      assert forall a :: a in args <==> a in before || a == last;
      forall p ensures p in paths <==> p != [] && p[0] == last.name && LeadsToId(doc, last.type_, p[1..]) {
        CollectsExactlyIdPaths(doc, last.type_, last.name, p);
      }
      CollectsWithoutRepeats(doc, last.type_, [last.name], {}, 0);
      var collected := CollectArguments(doc, before).value;
      forall p, q | p in collected && q in paths ensures p != q {
        var a :| a in before && p[0] == a.name && LeadsToId(doc, a.type_, p[1..]);
        var k :| 0 <= k < |before| && before[k] == a;
        assert InputName(args[k]) != InputName(args[n]);
      }
      ConcatWithoutRepeats(collected, paths);
    }
  }

  lemma {:induction false} WalkNames(doc: Document, t: TypeRef, steps: Path)
    requires ValidDocument(doc) && Walk(doc, t, steps).Some?
    ensures forall x :: x in steps ==> IsName(x)
    decreases |steps|
  {
    if steps != [] {
      var fields := InputFieldsOf(doc, t.of.name).value;
      FindCorrect(DeclName, doc, t.of.name);
      FindCorrect(InputName, fields, steps[0]);
      WalkNames(doc, Step(doc, t, steps[0]).value, steps[1..]);
      assert steps == [steps[0]] + steps[1..];
    }
  }

  lemma {:induction false} SortedPaths(doc: Document, args: seq<InputField>)
    requires ValidDocument(doc) && ValidInputs(args)
    requires CollectArguments(doc, args).Ok?
    ensures DistinctKeys(Json, CollectArguments(doc, args).value)
  {
    ArgumentsAreExact(doc, args);
    var paths := CollectArguments(doc, args).value;
    forall p | p in paths ensures forall x :: x in p ==> IsName(x) {
      var a :| a in args && p[0] == a.name && LeadsToId(doc, a.type_, p[1..]);
      WalkNames(doc, a.type_, p[1..]);
      assert p == [p[0]] + p[1..];
    }
    forall i, j | 0 <= i < j < |paths| ensures Json(paths[i]) != Json(paths[j]) {
      assert paths[i] in paths && paths[j] in paths;
      if Json(paths[i]) == Json(paths[j]) {
        JsonInjective(paths[i], paths[j]);
      }
    }
  }

  /** A field has an entry exactly when it resolves some entity by some identifier; the entry lists them all. */
  lemma FieldMetadataIsExact(doc: Document, owner: string, field: FieldDecl)
    requires ValidDocument(doc) && ValidInputs(field.args)
    requires DeriveField(doc, owner, field).Ok?
    ensures match DeriveField(doc, owner, field).value
            case None =>
              field.type_.of.ListOf?
              || (forall n :: !(Produces(doc, field.type_.of.name, n) && HasKeyField(doc, n)))
              || (forall p :: !IsIdPath(doc, field.args, p))
            case Some(metadata) =>
              && field.type_.of.Named? && metadata.targets != [] && metadata.argumentPaths != []
              && (forall n :: n in metadata.targets <==> Produces(doc, field.type_.of.name, n) && HasKeyField(doc, n))
              && (forall p :: p in metadata.argumentPaths <==> IsIdPath(doc, field.args, p))
              && Increasing(Itself, metadata.targets) && Increasing(Json, metadata.argumentPaths)
  {
    if field.type_.of.Named? {
      TargetsAreExact(doc, field.type_.of.name);
      if Targets(doc, field.type_.of.name) != [] {
        SortedArguments(doc, field.args);
        var paths := CollectArguments(doc, SortBy(InputName, field.args)).value;
        SortCorrect(Json, paths);
        if paths != [] {
          assert paths[0] in SortBy(Json, paths);
        }
      }
    }
  }

  lemma {:induction false} SortedArguments(doc: Document, args: seq<InputField>)
    requires ValidDocument(doc) && ValidInputs(args)
    requires CollectArguments(doc, SortBy(InputName, args)).Ok?
    ensures var paths := CollectArguments(doc, SortBy(InputName, args)).value;
            DistinctKeys(Json, paths) && forall p :: p in paths <==> IsIdPath(doc, args, p)
  {
    var sorted := SortBy(InputName, args);
    SortCorrect(InputName, args);
    forall i, j | 0 <= i < j < |sorted| ensures InputName(sorted[i]) != InputName(sorted[j]) {
      CompareEqual(InputName(sorted[i]), InputName(sorted[j]));
    }
    ArgumentsAreExact(doc, sorted);
    SortedPaths(doc, sorted);
    forall p ensures IsIdPath(doc, sorted, p) <==> IsIdPath(doc, args, p) {
    }
  }

  ghost predicate HasEntry(entries: seq<OwnerEntry>, owner: string, entry: FieldEntry) {
    exists o :: o in entries && o.owner == owner && entry in o.fields
  }

  lemma {:induction false} FieldEntriesAre(doc: Document, owner: string, fields: seq<FieldDecl>, entry: FieldEntry)
    requires DeriveFields(doc, owner, fields).Ok?
    ensures forall f :: f in fields ==> DeriveField(doc, owner, f).Ok?
    ensures entry in DeriveFields(doc, owner, fields).value <==>
            exists f :: f in fields && f.name == entry.field && DeriveField(doc, owner, f) == Ok(Some(entry.metadata))
  {
    if fields != [] {
      var n := |fields| - 1;
      FieldEntriesAre(doc, owner, fields[..n], entry);
      assert forall f :: f in fields <==> f in fields[..n] || f == fields[n];
    }
  }

  /** The fields of `d` as an entry would hold them. */
  ghost predicate Resolves(doc: Document, d: Decl, entry: FieldEntry)
    requires d.ObjectDecl?
  {
    DeriveFields(doc, d.name, SortBy(FieldName, d.fields)).Ok?
    && entry in DeriveFields(doc, d.name, SortBy(FieldName, d.fields)).value
  }

  lemma {:induction false} OwnerEntriesAre(doc: Document, owners: seq<Decl>, owner: string, entry: FieldEntry)
    requires forall o :: o in owners ==> o.ObjectDecl?
    requires DeriveOwners(doc, owners).Ok?
    ensures forall o :: o in owners ==> DeriveFields(doc, o.name, SortBy(FieldName, o.fields)).Ok?
    ensures HasEntry(DeriveOwners(doc, owners).value, owner, entry) <==>
            exists d :: d in owners && d.name == owner && Resolves(doc, d, entry)
  {
    if owners != [] {
      var n := |owners| - 1;
      var before, last := owners[..n], owners[n];
      OwnerEntriesAre(doc, before, owner, entry);
      assert forall d :: d in owners <==> d in before || d == last;
      var entries := DeriveOwners(doc, before).value;
      var fields := DeriveFields(doc, last.name, SortBy(FieldName, last.fields)).value;
      OneMoreOwner(entries, OwnerEntry(last.name, fields), owner, entry);
    }
  }

  lemma OneMoreOwner(entries: seq<OwnerEntry>, last: OwnerEntry, owner: string, entry: FieldEntry)
    ensures HasEntry(entries + [last], owner, entry)
            <==> HasEntry(entries, owner, entry) || (last.owner == owner && entry in last.fields)
    ensures last.fields == [] ==> (last.owner == owner && entry in last.fields <==> false)
  {
    if HasEntry(entries, owner, entry) {
      var o :| o in entries && o.owner == owner && entry in o.fields;
      assert o in entries + [last];
    }
    if last.owner == owner && entry in last.fields {
      assert last in entries + [last];
    }
  }

  /** The metadata has exactly the entries of the fields that resolve something, under their owners. */
  lemma MetadataIsExact(doc: Document, owner: string, entry: FieldEntry)
    requires ValidDocument(doc) && DeriveEntityResolverSchema(doc).Ok?
    ensures HasEntry(DeriveEntityResolverSchema(doc).value, owner, entry) <==>
            && !(|owner| >= 2 && owner[0] == '_' && owner[1] == '_')
            && exists d, f :: d in doc && d.ObjectDecl? && d.name == owner && f in d.fields && f.name == entry.field
                              && DeriveField(doc, owner, f) == Ok(Some(entry.metadata))
  {
    assert "__" <= owner <==> |owner| >= 2 && owner[0] == '_' && owner[1] == '_';
    var owners := SortBy(DeclName, Owners(doc));
    SortedOwners(doc);
    OwnerEntriesAre(doc, owners, owner, entry);
    forall d | d in owners && d.name == owner
      ensures Resolves(doc, d, entry) <==>
              exists f :: f in d.fields && f.name == entry.field
                          && DeriveField(doc, owner, f) == Ok(Some(entry.metadata))
    {
      SortCorrect(FieldName, d.fields);
      FieldEntriesAre(doc, owner, SortBy(FieldName, d.fields), entry);
    }
  }

  // ----- independence of declaration order -----

  /** The same field, its arguments in any order. */
  ghost predicate SameField(f: FieldDecl, g: FieldDecl) {
    f.name == g.name && f.type_ == g.type_ && forall a :: a in f.args <==> a in g.args
  }

  ghost predicate SameFoundField(f: Option<FieldDecl>, g: Option<FieldDecl>) {
    match (f, g)
    case (Some(f0), Some(g0)) => SameField(f0, g0)
    case (None, None) => true
    case _ => false
  }

  /** The same fields under every name. */
  ghost predicate SameFields(fs: seq<FieldDecl>, gs: seq<FieldDecl>) {
    forall name :: SameFoundField(Find(FieldName, fs, name), Find(FieldName, gs, name))
  }

  ghost predicate SameNames(xs: seq<string>, ys: seq<string>) {
    forall x :: x in xs <==> x in ys
  }

  /** The same declaration, with its fields, arguments, members and interfaces in any order. */
  ghost predicate SameDecl(d: Decl, e: Decl) {
    d.name == e.name &&
    match (d, e)
    case (ObjectDecl(_, fs, ifs), ObjectDecl(_, gs, igs)) => SameFields(fs, gs) && SameNames(ifs, igs)
    case (InterfaceDecl(_, fs, ifs), InterfaceDecl(_, gs, igs)) => SameFields(fs, gs) && SameNames(ifs, igs)
    case (UnionDecl(_, ms), UnionDecl(_, ns)) => SameNames(ms, ns)
    case (InputDecl(_, fs), InputDecl(_, gs)) => forall f :: f in fs <==> f in gs
    case (LeafDecl(_), LeafDecl(_)) => true
    case _ => false
  }

  ghost predicate SameFoundDecl(d: Option<Decl>, e: Option<Decl>) {
    match (d, e)
    case (Some(d0), Some(e0)) => SameDecl(d0, e0)
    case (None, None) => true
    case _ => false
  }

  /** The same declaration under every name, in whatever order either document lists them. */
  ghost predicate SameDocument(a: Document, b: Document) {
    forall name :: SameFoundDecl(Find(DeclName, a, name), Find(DeclName, b, name))
  }

  /** In particular, a document with its declarations permuted is the same document. */
  lemma PermutedIsSame(a: Document, b: Document)
    requires ValidDocument(a) && ValidDocument(b) && multiset(a) == multiset(b)
    ensures SameDocument(a, b)
  {
    assert forall d :: d in a <==> d in multiset(a);
    assert forall d :: d in b <==> d in multiset(b);
    forall name ensures SameFoundDecl(Find(DeclName, a, name), Find(DeclName, b, name)) {
      SameMembersFind(a, b, name);
      match Find<Decl>(DeclName, a, name)
      case Some(d) => SameDeclReflexive(d);
      case None =>
    }
  }

  lemma SameMembersFind(a: Document, b: Document, name: string)
    requires DistinctKeys(DeclName, a) && DistinctKeys(DeclName, b) && forall d :: d in a <==> d in b
    ensures Find(DeclName, a, name) == Find(DeclName, b, name)
  {
    FindCorrect(DeclName, a, name);
    FindCorrect(DeclName, b, name);
    if Find(DeclName, a, name).Some? {
      FindMember(DeclName, b, Find(DeclName, a, name).value);
    }
    if Find(DeclName, b, name).Some? {
      FindMember(DeclName, a, Find(DeclName, b, name).value);
    }
  }

  lemma SameDeclReflexive(d: Decl)
    ensures SameDecl(d, d)
  {
    match d
    case ObjectDecl(_, fs, _) => SameFieldsReflexive(fs);
    case InterfaceDecl(_, fs, _) => SameFieldsReflexive(fs);
    case _ =>
  }

  lemma SameFieldsReflexive(fs: seq<FieldDecl>)
    ensures SameFields(fs, fs)
  {
  }

  lemma {:induction false} SameFind(a: Document, b: Document, name: string)
    requires ValidDocument(a) && ValidDocument(b) && SameDocument(a, b)
    ensures match (Find(DeclName, a, name), Find(DeclName, b, name))
            case (Some(d), Some(e)) => d in a && e in b && SameDecl(d, e) && ValidDecl(d) && ValidDecl(e)
            case (None, None) => true
            case _ => false
  {
    FindCorrect(DeclName, a, name);
    FindCorrect(DeclName, b, name);
    assert SameFoundDecl(Find(DeclName, a, name), Find(DeclName, b, name));
  }

  lemma {:induction false} SameInputs(a: Document, b: Document, name: string)
    requires ValidDocument(a) && ValidDocument(b) && SameDocument(a, b)
    ensures match (InputFieldsOf(a, name), InputFieldsOf(b, name))
            case (Some(fs), Some(gs)) => SortBy(InputName, fs) == SortBy(InputName, gs)
            case (None, None) => true
            case _ => false
  {
    SameFind(a, b, name);
    match (InputFieldsOf(a, name), InputFieldsOf(b, name))
    case (Some(fs), Some(gs)) => SortForgetsOrder(InputName, fs, gs);
    case _ =>
  }

  lemma {:induction false} SamePaths(a: Document, b: Document, t: TypeRef, path: Path, visited: set<string>, depth: nat)
    requires ValidDocument(a) && ValidDocument(b) && SameDocument(a, b)
    requires depth <= MAX_ENTITY_RESOLVER_INPUT_DEPTH + 1
    ensures CollectPaths(a, t, path, visited, depth) == CollectPaths(b, t, path, visited, depth)
    decreases MAX_ENTITY_RESOLVER_INPUT_DEPTH + 1 - depth, 1, 0
  {
    if depth <= MAX_ENTITY_RESOLVER_INPUT_DEPTH && t.of.Named? {
      SameInputs(a, b, t.of.name);
      match InputFieldsOf(a, t.of.name)
      case Some(fields) => SameFieldPaths(a, b, SortBy(InputName, fields), path, visited + {t.of.name}, depth);
      case None =>
    }
  }

  lemma {:induction false} SameFieldPaths(a: Document, b: Document, fields: seq<InputField>, path: Path,
                                          visited: set<string>, depth: nat)
    requires ValidDocument(a) && ValidDocument(b) && SameDocument(a, b)
    requires depth <= MAX_ENTITY_RESOLVER_INPUT_DEPTH
    ensures CollectFields(a, fields, path, visited, depth) == CollectFields(b, fields, path, visited, depth)
    decreases MAX_ENTITY_RESOLVER_INPUT_DEPTH + 1 - depth, 0, |fields|
  {
    if fields != [] {
      SamePaths(a, b, fields[0].type_, path + [fields[0].name], visited, depth + 1);
      SameFieldPaths(a, b, fields[1..], path, visited, depth);
    }
  }

  lemma {:induction false} SameArguments(a: Document, b: Document, args: seq<InputField>)
    requires ValidDocument(a) && ValidDocument(b) && SameDocument(a, b)
    ensures CollectArguments(a, args) == CollectArguments(b, args)
  {
    if args != [] {
      var last := args[|args| - 1];
      SameArguments(a, b, args[..|args| - 1]);
      SamePaths(a, b, last.type_, [last.name], {}, 0);
    }
  }

  lemma {:induction false} SameKeyable(a: Document, b: Document, name: string)
    requires ValidDocument(a) && ValidDocument(b) && SameDocument(a, b)
    ensures HasKeyField(a, name) == HasKeyField(b, name)
  {
    KeyableIffKeyField(a, name);
    KeyableIffKeyField(b, name);
    SameFind(a, b, name);
    match (Find<Decl>(DeclName, a, name), Find<Decl>(DeclName, b, name))
    case (Some(ObjectDecl(_, fs, _)), Some(ObjectDecl(_, gs, _))) => SameFieldType(fs, gs, "id");
    case _ =>
  }

  lemma {:induction false} SameFieldType(fs: seq<FieldDecl>, gs: seq<FieldDecl>, name: string)
    requires SameFields(fs, gs)
    ensures match (Find(FieldName, fs, name), Find(FieldName, gs, name))
            case (Some(f), Some(g)) => f.type_ == g.type_
            case (None, None) => true
            case _ => false
  {
    assert SameFoundField(Find(FieldName, fs, name), Find(FieldName, gs, name));
  }

  lemma {:induction false} SameProduces(a: Document, b: Document, returnType: string, name: string)
    requires ValidDocument(a) && ValidDocument(b) && SameDocument(a, b)
    requires Produces(a, returnType, name)
    ensures Produces(b, returnType, name)
  {
    ProducesFound(a, returnType, name);
    ProducesFound(b, returnType, name);
    SameFind(a, b, returnType);
    match Find<Decl>(DeclName, a, returnType)
    case Some(InterfaceDecl(own, _, _)) =>
      var d :| d in a && d.ObjectDecl? && d.name == name && own in d.interfaces;
      FindMember(DeclName, a, d);
      SameFind(a, b, name);
      var e := Find<Decl>(DeclName, b, name).value;
      FindCorrect(DeclName, b, name);
      assert e in b && e.ObjectDecl? && e.name == name && own in e.interfaces;
    case _ =>
  }

  lemma SameDocumentSymmetric(a: Document, b: Document)
    requires SameDocument(a, b)
    ensures SameDocument(b, a)
  {
    forall name ensures SameFoundDecl(Find(DeclName, b, name), Find(DeclName, a, name)) {
      assert SameFoundDecl(Find(DeclName, a, name), Find(DeclName, b, name));
      match (Find<Decl>(DeclName, a, name), Find<Decl>(DeclName, b, name))
      case (Some(d), Some(e)) => SameDeclSymmetric(d, e);
      case _ =>
    }
  }

  lemma SameDeclSymmetric(d: Decl, e: Decl)
    requires SameDecl(d, e)
    ensures SameDecl(e, d)
  {
    match (d, e)
    case (ObjectDecl(_, fs, _), ObjectDecl(_, gs, _)) => SameFieldsSymmetric(fs, gs);
    case (InterfaceDecl(_, fs, _), InterfaceDecl(_, gs, _)) => SameFieldsSymmetric(fs, gs);
    case _ =>
  }

  lemma SameFieldsSymmetric(fs: seq<FieldDecl>, gs: seq<FieldDecl>)
    requires SameFields(fs, gs)
    ensures SameFields(gs, fs)
  {
    forall name ensures SameFoundField(Find(FieldName, gs, name), Find(FieldName, fs, name)) {
      assert SameFoundField(Find(FieldName, fs, name), Find(FieldName, gs, name));
    }
  }

  lemma {:induction false} SameTargets(a: Document, b: Document, returnType: string)
    requires ValidDocument(a) && ValidDocument(b) && SameDocument(a, b)
    ensures Targets(a, returnType) == Targets(b, returnType)
  {
    TargetsAreExact(a, returnType);
    TargetsAreExact(b, returnType);
    SameDocumentSymmetric(a, b);
    forall n ensures n in Targets(a, returnType) <==> n in Targets(b, returnType) {
      SameKeyable(a, b, n);
      if Produces(a, returnType, n) {
        SameProduces(a, b, returnType, n);
      }
      if Produces(b, returnType, n) {
        SameProduces(b, a, returnType, n);
      }
    }
    IncreasingUnique(Itself, Targets(a, returnType), Targets(b, returnType));
  }

  lemma {:induction false} SameFieldDerived(a: Document, b: Document, owner: string, f: FieldDecl, g: FieldDecl)
    requires ValidDocument(a) && ValidDocument(b) && SameDocument(a, b)
    requires SameField(f, g) && ValidInputs(f.args) && ValidInputs(g.args)
    ensures DeriveField(a, owner, f) == DeriveField(b, owner, g)
  {
    if f.type_.of.Named? {
      SameTargets(a, b, f.type_.of.name);
      SortForgetsOrder(InputName, f.args, g.args);
      SameArguments(a, b, SortBy(InputName, f.args));
    }
  }

  ghost predicate HasKey<T(!new)>(key: T -> string, xs: seq<T>, k: string) {
    exists x :: x in xs && key(x) == k
  }

  function Keys<T>(key: T -> string, xs: seq<T>): (ks: seq<string>)
    ensures |ks| == |xs| && forall i :: 0 <= i < |xs| ==> ks[i] == key(xs[i])
  {
    seq(|xs|, i requires 0 <= i < |xs| => key(xs[i]))
  }

  lemma {:induction false} KeysMember<T(!new)>(key: T -> string, xs: seq<T>, k: string)
    ensures k in Keys(key, xs) <==> HasKey(key, xs, k)
  {
    if HasKey(key, xs, k) {
      var x :| x in xs && key(x) == k;
      var i :| 0 <= i < |xs| && xs[i] == x;
      assert Keys(key, xs)[i] == k;
    }
    if k in Keys(key, xs) {
      var i :| 0 <= i < |xs| && Keys(key, xs)[i] == k;
      assert xs[i] in xs && key(xs[i]) == k;
    }
  }

  /** Sequences sorted by the same keys line up. */
  lemma {:induction false} SortedAlign<T(!new)>(key: T -> string, xs: seq<T>, ys: seq<T>)
    requires Increasing(key, xs) && Increasing(key, ys)
    requires forall k :: HasKey(key, xs, k) <==> HasKey(key, ys, k)
    ensures |xs| == |ys|
    ensures forall i :: 0 <= i < |xs| ==> key(xs[i]) == key(ys[i])
  {
    var ks, ls := Keys(key, xs), Keys(key, ys);
    forall k ensures k in ks <==> k in ls {
      KeysMember(key, xs, k);
      KeysMember(key, ys, k);
    }
    IncreasingUnique(Itself, ks, ls);
    forall i | 0 <= i < |xs| ensures key(xs[i]) == key(ys[i]) {
      assert ks[i] == ls[i];
    }
  }

  /** Sorting keeps the keys; they are the names that can be found. */
  lemma {:induction false} SortedKeys<T(!new)>(key: T -> string, xs: seq<T>, k: string)
    ensures HasKey(key, SortBy(key, xs), k) <==> Find(key, xs, k).Some?
  {
    SortCorrect(key, xs);
    FindCorrect(key, xs, k);
    if Find(key, xs, k).Some? {
      assert Find(key, xs, k).value in SortBy(key, xs);
    }
  }

  lemma {:induction false} SortedMember<T(!new)>(key: T -> string, xs: seq<T>, i: nat)
    requires DistinctKeys(key, xs) && i < |SortBy(key, xs)|
    ensures SortBy(key, xs)[i] in xs
    ensures Find(key, xs, key(SortBy(key, xs)[i])) == Some(SortBy(key, xs)[i])
  {
    SortCorrect(key, xs);
    assert SortBy(key, xs)[i] in SortBy(key, xs);
    FindMember(key, xs, SortBy(key, xs)[i]);
  }

  lemma {:induction false} SameSortedFields(fs: seq<FieldDecl>, gs: seq<FieldDecl>)
    requires ValidFields(fs) && ValidFields(gs) && SameFields(fs, gs)
    ensures var xs, ys := SortBy(FieldName, fs), SortBy(FieldName, gs);
            |xs| == |ys| && forall i :: 0 <= i < |xs| ==>
              SameField(xs[i], ys[i]) && ValidInputs(xs[i].args) && ValidInputs(ys[i].args)
  {
    var xs, ys := SortBy(FieldName, fs), SortBy(FieldName, gs);
    SortCorrect(FieldName, fs);
    SortCorrect(FieldName, gs);
    forall k ensures HasKey(FieldName, xs, k) <==> HasKey(FieldName, ys, k) {
      SortedKeys(FieldName, fs, k);
      SortedKeys(FieldName, gs, k);
      SameFieldType(fs, gs, k);
    }
    SortedAlign(FieldName, xs, ys);
    forall i | 0 <= i < |xs| ensures SameField(xs[i], ys[i]) && ValidInputs(xs[i].args) && ValidInputs(ys[i].args) {
      SortedMember(FieldName, fs, i);
      SortedMember(FieldName, gs, i);
      assert SameFoundField(Find(FieldName, fs, xs[i].name), Find(FieldName, gs, xs[i].name));
    }
  }

  lemma {:induction false} SameFieldsDerived(a: Document, b: Document, owner: string, xs: seq<FieldDecl>,
      ys: seq<FieldDecl>)
    requires ValidDocument(a) && ValidDocument(b) && SameDocument(a, b)
    requires |xs| == |ys|
    requires forall i :: 0 <= i < |xs| ==> SameField(xs[i], ys[i]) && ValidInputs(xs[i].args) && ValidInputs(ys[i].args)
    ensures DeriveFields(a, owner, xs) == DeriveFields(b, owner, ys)
  {
    if xs != [] {
      var n := |xs| - 1;
      SameFieldsDerived(a, b, owner, xs[..n], ys[..n]);
      SameFieldDerived(a, b, owner, xs[n], ys[n]);
    }
  }

  /** Owners are found under the same names in both documents. */
  lemma {:induction false} SameOwnerKeys(a: Document, b: Document, k: string)
    requires ValidDocument(a) && ValidDocument(b) && SameDocument(a, b)
    requires HasKey(DeclName, SortBy(DeclName, Owners(a)), k)
    ensures HasKey(DeclName, SortBy(DeclName, Owners(b)), k)
  {
    SortedOwners(a);
    SortedOwners(b);
    var x :| x in SortBy(DeclName, Owners(a)) && DeclName(x) == k;
    FindMember(DeclName, a, x);
    SameFind(a, b, k);
    FindCorrect(DeclName, b, k);
    var y := Find<Decl>(DeclName, b, k).value;
    assert y in SortBy(DeclName, Owners(b));
  }

  lemma {:induction false} SameSortedOwners(a: Document, b: Document)
    requires ValidDocument(a) && ValidDocument(b) && SameDocument(a, b)
    ensures var xs, ys := SortBy(DeclName, Owners(a)), SortBy(DeclName, Owners(b));
            |xs| == |ys| && forall i :: 0 <= i < |xs| ==> SameOwner(a, b, xs[i], ys[i])
  {
    var xs, ys := SortBy(DeclName, Owners(a)), SortBy(DeclName, Owners(b));
    OwnersAre(a);
    OwnersAre(b);
    SortCorrect(DeclName, Owners(a));
    SortCorrect(DeclName, Owners(b));
    SameDocumentSymmetric(a, b);
    forall k ensures HasKey(DeclName, xs, k) <==> HasKey(DeclName, ys, k) {
      if HasKey(DeclName, xs, k) {
        SameOwnerKeys(a, b, k);
      }
      if HasKey(DeclName, ys, k) {
        SameOwnerKeys(b, a, k);
      }
    }
    SortedAlign(DeclName, xs, ys);
    SortedOwners(a);
    SortedOwners(b);
    forall i | 0 <= i < |xs| ensures SameOwner(a, b, xs[i], ys[i]) {
      assert xs[i] in xs && ys[i] in ys;
      FindMember(DeclName, a, xs[i]);
      FindMember(DeclName, b, ys[i]);
      SameFind(a, b, xs[i].name);
    }
  }

  ghost predicate SameOwner(a: Document, b: Document, d: Decl, e: Decl) {
    d in a && e in b && SameDecl(d, e)
  }

  lemma {:induction false} SameOwnersDerived(a: Document, b: Document, xs: seq<Decl>, ys: seq<Decl>)
    requires ValidDocument(a) && ValidDocument(b) && SameDocument(a, b)
    requires |xs| == |ys|
    requires forall o :: o in xs || o in ys ==> o.ObjectDecl?
    requires forall i :: 0 <= i < |xs| ==> SameOwner(a, b, xs[i], ys[i])
    ensures DeriveOwners(a, xs) == DeriveOwners(b, ys)
  {
    if xs != [] {
      var n := |xs| - 1;
      SameOwnersDerived(a, b, xs[..n], ys[..n]);
      assert xs[n] in xs && ys[n] in ys && SameOwner(a, b, xs[n], ys[n]);
      SameSortedFields(xs[n].fields, ys[n].fields);
      SameFieldsDerived(a, b, xs[n].name, SortBy(FieldName, xs[n].fields), SortBy(FieldName, ys[n].fields));
    }
  }

  /**
   * The metadata, or the error, does not depend on the order of type, field, argument, input-field,
   * union-member or interface declarations.
   */
  lemma DerivationForgetsOrder(a: Document, b: Document)
    requires ValidDocument(a) && ValidDocument(b) && SameDocument(a, b)
    ensures DeriveEntityResolverSchema(a) == DeriveEntityResolverSchema(b)
  {
    SameSortedOwners(a, b);
    SortedOwners(a);
    SortedOwners(b);
    SameOwnersDerived(a, b, SortBy(DeclName, Owners(a)), SortBy(DeclName, Owners(b)));
  }
}
