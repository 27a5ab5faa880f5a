/** What a server sent, without its `@cacheOnly` entries, and the generated type of just that. */
module ProjectionRestriction {
  import opened Outcomes
  import opened GraphqlTypes
  import opened ProjectionDocument
  import opened ResponseSemantics
  import opened FieldReachability
  import opened ProjectionSoundness
  import opened ProjectionStrip
  import opened ProjectionPlugin

  /** `w` is `v` with entries deleted, at any depth; nothing is added or changed. */
  ghost predicate Restricts(w: Value, v: Value)
    decreases v
  {
    match v
    case Fields(entries) =>
      w.Fields?
      && forall e :: e in w.entries ==> exists f :: f in entries && f.key == e.key && Restricts(e.value, f.value)
    case Items(items) =>
      w.Items? && |w.items| == |items| && forall i :: 0 <= i < |items| ==> Restricts(w.items[i], items[i])
    case _ => w == v
  }

  /** An entry that answers the fields of its key. */
  ghost predicate Answers(schema: Schema, fragments: FragmentMap, concrete: string, fields: seq<FieldNode>, e: Entry) {
    var group := FieldsWithKey(fields, e.key);
    && group != []
    && CanAnswer(schema, concrete, group[0])
    && if group[0].name == "__typename" then e.value == Text(concrete)
       else Completes(schema, fragments, FieldsOf(schema, concrete)[group[0].name], MergedSelections(group), e.value)
  }

  ghost predicate AllCanMerge(schema: Schema, fragments: FragmentMap, named: string, selections: seq<Selection>) {
    forall next :: next in PossibleObjectTypes(schema, named) ==> CanMerge(schema, fragments, next, selections)
  }

  ghost predicate Among(fewer: seq<Selection>, selections: seq<Selection>) {
    forall s :: s in fewer ==> s in Strip(selections)
  }

  /** The first field of a stripped group is the first of the whole group, by name. */
  lemma SameGroupName(schema: Schema, fragments: FragmentMap, concrete: string,
                      fewer: seq<Selection>, selections: seq<Selection>, key: string)
    requires CanMerge(schema, fragments, concrete, selections) && Among(fewer, selections)
    requires FieldsWithKey(ResponseFields(schema, StripFragments(fragments), concrete, fewer), key) != []
    ensures var group := FieldsWithKey(ResponseFields(schema, fragments, concrete, selections), key);
            var fewerGroup := FieldsWithKey(ResponseFields(schema, StripFragments(fragments), concrete, fewer), key);
            group != [] && fewerGroup[0].name == group[0].name
  {
    var group := FieldsWithKey(ResponseFields(schema, fragments, concrete, selections), key);
    var f := FieldsWithKey(ResponseFields(schema, StripFragments(fragments), concrete, fewer), key)[0];
    var original := AnsweredStripped(schema, fragments, concrete, fewer, selections, f);
    assert original in group;
    assert group[0] in group;
    SameKeySameName(schema, fragments, concrete, selections, original, group[0]);
  }

  lemma {:induction false} RestrictCompletion(schema: Schema, fragments: FragmentMap, t: TypeRef,
                                              fewer: seq<Selection>, selections: seq<Selection>, v: Value)
    returns (w: Value)
    requires Completes(schema, fragments, t, selections, v)
    requires AllCanMerge(schema, fragments, NamedTypeOf(t), selections) && Among(fewer, selections)
    ensures Restricts(w, v) && Completes(schema, StripFragments(fragments), t, fewer, w)
    decreases v, 4
  {
    w := v;
    if !v.Null? {
      w := RestrictBare(schema, fragments, t.of, fewer, selections, v);
    }
  }

  lemma RestrictBare(schema: Schema, fragments: FragmentMap, t: BareRef,
                     fewer: seq<Selection>, selections: seq<Selection>, v: Value)
    returns (w: Value)
    requires !v.Null? && CompletesBare(schema, fragments, t, selections, v)
    requires AllCanMerge(schema, fragments, NamedTypeOf(Nullable(t)), selections) && Among(fewer, selections)
    ensures !w.Null? && Restricts(w, v) && CompletesBare(schema, StripFragments(fragments), t, fewer, w)
    decreases v, 3, 0
  {
    match t
    case ListOf(item) =>
      var items := RestrictItems(schema, fragments, item, fewer, selections, v, |v.items|);
      w := Items(items);
    case Named(name) =>
      if IsComposite(schema, name) {
        var concrete :| concrete in PossibleObjectTypes(schema, name)
                        && ObjectResponse(schema, fragments, concrete, selections, v);
        w := RestrictObject(schema, fragments, concrete, fewer, selections, v);
      } else {
        w := v;
        LeafRestricts(schema, name, v);
      }
  }

  lemma LeafRestricts(schema: Schema, name: string, v: Value)
    requires LeafValue(schema, name, v)
    ensures v.Text? || v.Number? || v.Truth? || v.Items? || v.Fields?
    ensures Restricts(v, v)
  {
    RestrictsItself(v);
  }

  lemma {:induction false} RestrictsItself(v: Value)
    ensures Restricts(v, v)
    decreases v
  {
    match v
    case Fields(entries) =>
      forall e | e in entries ensures exists f :: f in entries && f.key == e.key && Restricts(e.value, f.value) {
        RestrictsItself(e.value);
      }
    case Items(items) =>
      forall i | 0 <= i < |items| ensures Restricts(items[i], items[i]) {
        RestrictsItself(items[i]);
      }
    case _ =>
  }

  lemma {:induction false} RestrictItems(schema: Schema, fragments: FragmentMap, item: TypeRef,
                                         fewer: seq<Selection>, selections: seq<Selection>, v: Value, n: nat)
    returns (items: seq<Value>)
    requires v.Items? && n <= |v.items|
    requires forall x :: x in v.items ==> Completes(schema, fragments, item, selections, x)
    requires AllCanMerge(schema, fragments, NamedTypeOf(item), selections) && Among(fewer, selections)
    ensures |items| == n && forall i :: 0 <= i < n ==> Restricts(items[i], v.items[i])
    ensures forall x :: x in items ==> Completes(schema, StripFragments(fragments), item, fewer, x)
    decreases v, 0, n
  {
    if n == 0 {
      items := [];
    } else {
      items := RestrictItems(schema, fragments, item, fewer, selections, v, n - 1);
      var last := RestrictCompletion(schema, fragments, item, fewer, selections, v.items[n - 1]);
      items := items + [last];
    }
  }

  lemma RestrictEntry(schema: Schema, fragments: FragmentMap, concrete: string,
                      fewer: seq<Selection>, selections: seq<Selection>, e: Entry)
    returns (kept: Entry)
    requires CanMerge(schema, fragments, concrete, selections) && Among(fewer, selections)
    requires Answers(schema, fragments, concrete, ResponseFields(schema, fragments, concrete, selections), e)
    requires FieldsWithKey(ResponseFields(schema, StripFragments(fragments), concrete, fewer), e.key) != []
    ensures kept.key == e.key && Restricts(kept.value, e.value)
    ensures Answers(schema, StripFragments(fragments), concrete,
                    ResponseFields(schema, StripFragments(fragments), concrete, fewer), kept)
    decreases e.value, 5
  {
    var group := FieldsWithKey(ResponseFields(schema, fragments, concrete, selections), e.key);
    var fewerGroup := FieldsWithKey(ResponseFields(schema, StripFragments(fragments), concrete, fewer), e.key);
    SameGroupName(schema, fragments, concrete, fewer, selections, e.key);
    if group[0].name == "__typename" {
      kept := e;
      RestrictsItself(e.value);
    } else {
      assert group[0] in group;
      BelowCanMerge(schema, fragments, concrete, selections, group[0]);
      MergedStripped(schema, fragments, concrete, fewer, selections, e.key);
      var w := RestrictCompletion(schema, fragments, FieldsOf(schema, concrete)[group[0].name],
                                  MergedSelections(fewerGroup), MergedSelections(group), e.value);
      kept := Entry(e.key, w);
    }
  }

  ghost predicate DistinctKeys(entries: seq<Entry>) {
    forall i, j :: 0 <= i < j < |entries| ==> entries[i].key != entries[j].key
  }

  /** The entries kept of the first `n`. */
  lemma {:induction false} RestrictEntries(schema: Schema, fragments: FragmentMap, concrete: string,
                                           fewer: seq<Selection>, selections: seq<Selection>, v: Value, n: nat)
    returns (kept: seq<Entry>)
    requires v.Fields? && n <= |v.entries| && DistinctKeys(v.entries)
    requires CanMerge(schema, fragments, concrete, selections) && Among(fewer, selections)
    requires forall e :: e in v.entries ==>
               Answers(schema, fragments, concrete, ResponseFields(schema, fragments, concrete, selections), e)
    ensures Keeps(schema, StripFragments(fragments), concrete,
                  ResponseFields(schema, StripFragments(fragments), concrete, fewer), kept, v.entries, n)
    decreases v, 1, n
  {
    if n == 0 {
      kept := [];
    } else {
      var e := v.entries[n - 1];
      kept := RestrictEntries(schema, fragments, concrete, fewer, selections, v, n - 1);
      if FieldsWithKey(ResponseFields(schema, StripFragments(fragments), concrete, fewer), e.key) != [] {
        var last := RestrictEntry(schema, fragments, concrete, fewer, selections, e);
        DistinctOneMore(kept, v.entries, n, last);
        FromFirstOneMore(kept, v.entries, n, last);
        NoneMissingOneMore(ResponseFields(schema, StripFragments(fragments), concrete, fewer),
                           kept, v.entries, n, last);
        kept := kept + [last];
      }
    }
  }

  /** Every kept entry restricts the one of its key, among the first `n`. */
  ghost predicate FromFirst(kept: seq<Entry>, entries: seq<Entry>, n: nat)
    requires n <= |entries|
  {
    forall e :: e in kept ==> exists i :: 0 <= i < n && entries[i].key == e.key && Restricts(e.value, entries[i].value)
  }

  /** None of the first `n` that are still asked for is missing. */
  ghost predicate NoneMissing(fields: seq<FieldNode>, kept: seq<Entry>, entries: seq<Entry>, n: nat)
    requires n <= |entries|
  {
    forall i :: 0 <= i < n && FieldsWithKey(fields, entries[i].key) != [] ==> HasKey(kept, entries[i].key)
  }

  ghost predicate HasKey(entries: seq<Entry>, key: string) {
    exists e :: e in entries && e.key == key
  }

  ghost predicate Keeps(schema: Schema, fragments: FragmentMap, concrete: string, fields: seq<FieldNode>,
                        kept: seq<Entry>, entries: seq<Entry>, n: nat)
    requires n <= |entries|
  {
    && DistinctKeys(kept)
    && (forall e :: e in kept ==> Answers(schema, fragments, concrete, fields, e))
    && FromFirst(kept, entries, n)
    && NoneMissing(fields, kept, entries, n)
  }

  lemma DistinctOneMore(kept: seq<Entry>, entries: seq<Entry>, n: nat, last: Entry)
    requires 0 < n <= |entries| && DistinctKeys(entries) && DistinctKeys(kept) && FromFirst(kept, entries, n - 1)
    requires last.key == entries[n - 1].key
    ensures DistinctKeys(kept + [last])
  {
    forall j | 0 <= j < |kept| ensures kept[j].key != last.key {
      assert kept[j] in kept;
    }
  }

  lemma FromFirstOneMore(kept: seq<Entry>, entries: seq<Entry>, n: nat, last: Entry)
    requires 0 < n <= |entries| && FromFirst(kept, entries, n - 1)
    requires last.key == entries[n - 1].key && Restricts(last.value, entries[n - 1].value)
    ensures FromFirst(kept + [last], entries, n)
  {
    forall e | e in kept + [last]
      ensures exists i :: 0 <= i < n && entries[i].key == e.key && Restricts(e.value, entries[i].value)
    {
      if e in kept {
        var i :| 0 <= i < n - 1 && entries[i].key == e.key && Restricts(e.value, entries[i].value);
      }
    }
  }

  lemma HasKeyOneMore(kept: seq<Entry>, last: Entry, key: string)
    requires HasKey(kept, key) || last.key == key
    ensures HasKey(kept + [last], key)
  {
    if HasKey(kept, key) {
      var e :| e in kept && e.key == key;
      assert e in kept + [last];
    } else {
      assert last in kept + [last];
    }
  }

  lemma NoneMissingOneMore(fields: seq<FieldNode>, kept: seq<Entry>, entries: seq<Entry>, n: nat, last: Entry)
    requires 0 < n <= |entries| && NoneMissing(fields, kept, entries, n - 1) && last.key == entries[n - 1].key
    ensures NoneMissing(fields, kept + [last], entries, n)
  {
    forall i | 0 <= i < n && FieldsWithKey(fields, entries[i].key) != [] ensures HasKey(kept + [last], entries[i].key) {
      HasKeyOneMore(kept, last, entries[i].key);
    }
  }

  /** Every response to some selections holds a response to their stripped form, by deleting entries only. */
  lemma RestrictObject(schema: Schema, fragments: FragmentMap, concrete: string,
                       fewer: seq<Selection>, selections: seq<Selection>, v: Value)
    returns (w: Value)
    requires ObjectResponse(schema, fragments, concrete, selections, v)
    requires CanMerge(schema, fragments, concrete, selections) && Among(fewer, selections)
    ensures Restricts(w, v) && ObjectResponse(schema, StripFragments(fragments), concrete, fewer, w)
    decreases v, 2
  {
    var kept := RestrictEntries(schema, fragments, concrete, fewer, selections, v, |v.entries|);
    w := Fields(kept);
    var fields := ResponseFields(schema, StripFragments(fragments), concrete, fewer);
    forall f | f in fields && CanAnswer(schema, concrete, FieldsWithKey(fields, ResponseKey(f))[0])
      ensures HasKey(kept, ResponseKey(f))
    {
      AnsweredBefore(schema, fragments, concrete, fewer, selections, v, f);
    }
  }

  lemma AnsweredBefore(schema: Schema, fragments: FragmentMap, concrete: string,
                       fewer: seq<Selection>, selections: seq<Selection>, v: Value, f: FieldNode)
    requires ObjectResponse(schema, fragments, concrete, selections, v)
    requires CanMerge(schema, fragments, concrete, selections) && Among(fewer, selections)
    requires f in ResponseFields(schema, StripFragments(fragments), concrete, fewer)
    requires var fields := ResponseFields(schema, StripFragments(fragments), concrete, fewer);
             CanAnswer(schema, concrete, FieldsWithKey(fields, ResponseKey(f))[0])
    ensures exists i :: 0 <= i < |v.entries| && v.entries[i].key == ResponseKey(f)
  {
    SameGroupName(schema, fragments, concrete, fewer, selections, ResponseKey(f));
    var original := AnsweredStripped(schema, fragments, concrete, fewer, selections, f);
    assert ResponseKey(original) == ResponseKey(f);
    var e :| e in v.entries && e.key == ResponseKey(original);
  }

  // ----- operations -----

  /**
   * For every response to an operation there is what remains without its `@cacheOnly` entries: a response to the
   * operation with those fields removed, obtained by deleting entries only.
   */
  lemma ResponseRestricts(schema: Schema, fragments: FragmentMap, operation: Definition, v: Value) returns (w: Value)
    requires operation.OperationDefinition?
    requires OperationCanMerge(schema, fragments, operation.kind, operation.selectionSet)
    requires OperationResponse(schema, fragments, operation.kind, operation.selectionSet, v)
    ensures Restricts(w, v)
    ensures OperationResponse(schema, StripFragments(fragments), operation.kind, Strip(operation.selectionSet), w)
  {
    var root := OperationRoot(schema, operation.kind).value;
    w := RestrictObject(schema, fragments, root, Strip(operation.selectionSet), operation.selectionSet, v);
  }

  /**
   * What the server sent, without its `@cacheOnly` entries, has the generated type; and without fragment cycles
   * the type leaves none of its visible data out.
   */
  lemma RestrictionFits(schema: Schema, fragments: FragmentMap, operation: Definition, emitted: Emitted, v: Value)
    returns (w: Value)
    requires ValidSchema(schema) && operation.OperationDefinition?
    requires EmitDefinition(schema, fragments, operation) == Ok([emitted])
    requires OperationCanMerge(schema, fragments, operation.kind, operation.selectionSet)
    requires OperationResponse(schema, fragments, operation.kind, operation.selectionSet, v)
    ensures Restricts(w, v)
    ensures OperationResponse(schema, StripFragments(fragments), operation.kind, Strip(operation.selectionSet), w)
    ensures emitted.type_.Some? ==> Fits(schema, w, emitted.type_.value, false)
    ensures NoFragmentCycles(fragments) ==> ProjectionFits(schema, w, emitted.type_, true)
  {
    w := ResponseRestricts(schema, fragments, operation, v);
    RestrictedResponsesFit(schema, fragments, operation, emitted, w);
    if NoFragmentCycles(fragments) {
      RestrictedResponsesFitExactly(schema, fragments, operation, emitted, w);
    }
  }
}
