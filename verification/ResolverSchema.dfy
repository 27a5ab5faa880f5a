/** An SDL document as the entity-resolver generator reads it: declarations in source order. */
module ResolverSchema {
  import opened Outcomes
  import opened GraphqlTypes
  import opened StringOrder

  datatype InputField = InputField(name: string, type_: TypeRef)

  datatype FieldDecl = FieldDecl(name: string, type_: TypeRef, args: seq<InputField>)

  datatype Decl =
    | ObjectDecl(name: string, fields: seq<FieldDecl>, interfaces: seq<string>)
    | InterfaceDecl(name: string, fields: seq<FieldDecl>, interfaces: seq<string>)
    | UnionDecl(name: string, members: seq<string>)
    | InputDecl(name: string, inputs: seq<InputField>)
    | LeafDecl(name: string)

  type Document = seq<Decl>

  const ID := "ID"

  function InputName(f: InputField): string { f.name }

  function FieldName(f: FieldDecl): string { f.name }

  function DeclName(d: Decl): string { d.name }

  function Find<T(!new)>(key: T -> string, xs: seq<T>, name: string): Option<T> {
    if xs == [] then None
    else if key(xs[0]) == name then Some(xs[0])
    else Find(key, xs[1..], name)
  }

  lemma {:induction false} FindCorrect<T(!new)>(key: T -> string, xs: seq<T>, name: string)
    ensures Find(key, xs, name).Some? ==> Find(key, xs, name).value in xs && key(Find(key, xs, name).value) == name
    ensures Find(key, xs, name).None? ==> forall x :: x in xs ==> key(x) != name
  {
    if xs != [] {
      FindCorrect(key, xs[1..], name);
      assert xs == [xs[0]] + xs[1..];
    }
  }

  lemma {:induction false} FindMember<T(!new)>(key: T -> string, xs: seq<T>, x: T)
    requires x in xs && DistinctKeys(key, xs)
    ensures Find(key, xs, key(x)) == Some(x)
  {
    if key(xs[0]) != key(x) {
      DistinctTail(key, xs);
      FindMember(key, xs[1..], x);
    } else {
      DistinctTail(key, xs);
      assert xs == [xs[0]] + xs[1..];
    }
  }

  /** The fields of an input object type; `None` for any other type. */
  function InputFieldsOf(doc: Document, name: string): Option<seq<InputField>> {
    match Find<Decl>(DeclName, doc, name)
    case Some(InputDecl(_, inputs)) => Some(inputs)
    case _ => None
  }

  /** Section 2.1.9 of the GraphQL specification (October 2021). */
  predicate IsName(s: string) {
    forall c :: c in s ==> 'a' <= c <= 'z' || 'A' <= c <= 'Z' || '0' <= c <= '9' || c == '_'
  }

  ghost predicate ValidInputs(inputs: seq<InputField>) {
    DistinctKeys(InputName, inputs) && forall f :: f in inputs ==> IsName(f.name)
  }

  ghost predicate ValidFields(fields: seq<FieldDecl>) {
    DistinctKeys(FieldName, fields) && forall f :: f in fields ==> ValidInputs(f.args)
  }

  ghost predicate ValidDecl(d: Decl) {
    match d
    case ObjectDecl(_, fields, _) => ValidFields(fields)
    case InterfaceDecl(_, fields, _) => ValidFields(fields)
    case UnionDecl(_, members) => DistinctKeys(Itself, members)
    case InputDecl(name, inputs) => name != ID && ValidInputs(inputs)
    case LeafDecl(_) => true
  }

  /** Names are unique wherever `assertValidSchema` requires it, and `ID` is the built-in scalar. */
  ghost predicate ValidDocument(doc: Document) {
    DistinctKeys(DeclName, doc) && forall d :: d in doc ==> ValidDecl(d)
  }
}
