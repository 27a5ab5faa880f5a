/** Parts of an assistant message, and merging runs of text and thinking (`merge_consecutive_parts`). */
module MessageParts {
  import opened Outcomes
  import opened Sequences
  import opened Json

  datatype Part =
    | Text(text: string)
    | ToolCall(name: string, json: Json, id: string)
    | McpToolCall(name: string, service: string, displayName: Option<string>, json: Json, id: string)
    | ToolCallResponseJson(name: string, json: Json, id: string)
    | ToolCallErr(name: string, description: string, id: string)
    | Thinking(thinking: string)

  /** One more part: joined to the last one when both are text or both are thinking. */
  function Push(merged: seq<Part>, part: Part): seq<Part> {
    if merged == [] then [part]
    else
      var last := |merged| - 1;
      match (merged[last], part)
      case (Text(acc), Text(text)) => merged[..last] + [Text(acc + text)]
      case (Thinking(acc), Thinking(thinking)) => merged[..last] + [Thinking(acc + thinking)]
      case _ => merged + [part]
  }

  function Pushes(merged: seq<Part>, parts: seq<Part>): seq<Part> {
    if parts == [] then merged else Push(Pushes(merged, parts[..|parts| - 1]), parts[|parts| - 1])
  }

  function Merge(parts: seq<Part>): seq<Part> {
    Pushes([], parts)
  }

  /** The loop: one pass, extending the last output part in place. */
  method MergeConsecutiveParts(parts: seq<Part>) returns (out: seq<Part>)
    ensures out == Merge(parts)
  {
    out := [];
    for i := 0 to |parts|
      invariant out == Merge(parts[..i])
    {
      var part := parts[i];
      assert parts[..i + 1][..i] == parts[..i];
      if out != [] && out[|out| - 1].Text? && part.Text? {
        out := out[|out| - 1 := Text(out[|out| - 1].text + part.text)];
      } else if out != [] && out[|out| - 1].Thinking? && part.Thinking? {
        out := out[|out| - 1 := Thinking(out[|out| - 1].thinking + part.thinking)];
      } else {
        out := out + [part];
      }
    }
    assert parts[..|parts|] == parts;
  }

  // ----- merging twice -----

  predicate Joins(a: Part, b: Part) {
    (a.Text? && b.Text?) || (a.Thinking? && b.Thinking?)
  }

  function Join(a: Part, b: Part): Part
    requires Joins(a, b)
  {
    if a.Text? then Text(a.text + b.text) else Thinking(a.thinking + b.thinking)
  }

  lemma PushOnto(before: seq<Part>, last: Part, part: Part)
    ensures Push(before + [last], part)
            == if Joins(last, part) then before + [Join(last, part)] else before + [last] + [part]
  {
    assert (before + [last])[..|before|] == before;
  }

  /** Pushing two parts that join is pushing their join. */
  lemma PushJoined(merged: seq<Part>, a: Part, b: Part)
    requires Joins(a, b)
    ensures Push(Push(merged, a), b) == Push(merged, Join(a, b))
  {
    if merged == [] {
      PushOnto([], a, b);
      assert [] + [a] == [a] && [] + [Join(a, b)] == [Join(a, b)];
    } else {
      var before, last := merged[..|merged| - 1], merged[|merged| - 1];
      assert merged == before + [last];
      PushOnto(before, last, a);
      PushOnto(before, last, Join(a, b));
      if Joins(last, a) {
        JoinTwice(last, a, b);
        PushOnto(before, Join(last, a), b);
      } else {
        PushOnto(merged, a, b);
      }
    }
  }

  lemma JoinTwice(a: Part, b: Part, c: Part)
    requires Joins(a, b) && Joins(b, c)
    ensures Join(Join(a, b), c) == Join(a, Join(b, c))
  {
    if a.Text? {
      AppendIsAssociative(a.text, b.text, c.text);
    } else {
      AppendIsAssociative(a.thinking, b.thinking, c.thinking);
    }
  }

  lemma PushesSnoc(merged: seq<Part>, parts: seq<Part>, part: Part)
    ensures Pushes(merged, parts + [part]) == Push(Pushes(merged, parts), part)
  {
    assert (parts + [part])[..|parts|] == parts;
  }

  /** Pushing an already merged run adds nothing to pushing its parts. */
  lemma PushesPush(merged: seq<Part>, parts: seq<Part>, part: Part)
    ensures Pushes(merged, Push(parts, part)) == Push(Pushes(merged, parts), part)
  {
    if parts == [] {
      PushesSnoc(merged, [], part);
      assert [] + [part] == [part];
    } else {
      var last := |parts| - 1;
      var before, end := parts[..last], parts[last];
      assert parts == before + [end];
      PushesSnoc(merged, before, end);
      if Joins(end, part) {
        assert Push(parts, part) == before + [Join(end, part)];
        PushesSnoc(merged, before, Join(end, part));
        PushJoined(Pushes(merged, before), end, part);
      } else {
        PushesSnoc(merged, parts, part);
      }
    }
  }

  lemma {:induction false} PushesMerged(merged: seq<Part>, parts: seq<Part>)
    ensures Pushes(merged, Merge(parts)) == Pushes(merged, parts)
  {
    if parts != [] {
      var before, last := parts[..|parts| - 1], parts[|parts| - 1];
      PushesMerged(merged, before);
      PushesPush(merged, Merge(before), last);
    }
  }

  lemma {:induction false} PushesAppend(merged: seq<Part>, a: seq<Part>, b: seq<Part>)
    ensures Pushes(merged, a + b) == Pushes(Pushes(merged, a), b)
  {
    if b == [] {
      assert a + b == a;
    } else {
      var before, last := b[..|b| - 1], b[|b| - 1];
      PushesAppend(merged, a, before);
      AppendLast(a, b);
      PushesSnoc(merged, a + before, last);
    }
  }

  /** Merging is idempotent, and merging pieces first changes nothing. */
  lemma MergeOfPieces(a: seq<Part>, b: seq<Part>)
    ensures Merge(Merge(a)) == Merge(a)
    ensures Merge(a + b) == Merge(Merge(a) + Merge(b))
  {
    PushesMerged([], a);
    PushesAppend([], a, b);
    PushesAppend([], Merge(a), Merge(b));
    PushesMerged(Merge(a), b);
  }

  predicate NoAdjacentRuns(parts: seq<Part>) {
    forall i :: 0 <= i < |parts| - 1 ==> !Joins(parts[i], parts[i + 1])
  }

  lemma {:induction false} MergedHasNoAdjacentRuns(parts: seq<Part>)
    ensures NoAdjacentRuns(Merge(parts))
    ensures parts != [] ==> Merge(parts) != []
  {
    if parts != [] {
      MergedHasNoAdjacentRuns(parts[..|parts| - 1]);
    }
  }

  // ----- content, character by character -----

  /** A unit of streamed content: characters of text or thinking, or an indivisible part. */
  datatype Atom = TextChar(c: char) | ThinkingChar(c: char) | Whole(part: Part)

  function PartAtoms(part: Part): seq<Atom> {
    match part
    case Text(text) => seq(|text|, i requires 0 <= i < |text| => TextChar(text[i]))
    case Thinking(thinking) => seq(|thinking|, i requires 0 <= i < |thinking| => ThinkingChar(thinking[i]))
    case _ => [Whole(part)]
  }

  function Atoms(parts: seq<Part>): seq<Atom> {
    if parts == [] then [] else PartAtoms(parts[0]) + Atoms(parts[1..])
  }

  lemma {:induction false} AtomsAppend(a: seq<Part>, b: seq<Part>)
    ensures Atoms(a + b) == Atoms(a) + Atoms(b)
  {
    if a == [] {
      assert a + b == b;
    } else {
      TailOfAppend(a, b);
      AtomsAppend(a[1..], b);
      AppendIsAssociative(PartAtoms(a[0]), Atoms(a[1..]), Atoms(b));
    }
  }

  lemma AtomsOfOne(part: Part)
    ensures Atoms([part]) == PartAtoms(part)
  {
    assert [part][1..] == [];
    AppendNothing(PartAtoms(part));
  }

  lemma JoinAtoms(a: Part, b: Part)
    requires Joins(a, b)
    ensures PartAtoms(Join(a, b)) == PartAtoms(a) + PartAtoms(b)
  {
  }

  lemma PushAtoms(merged: seq<Part>, part: Part)
    ensures Atoms(Push(merged, part)) == Atoms(merged) + PartAtoms(part)
  {
    AtomsOfOne(part);
    if merged == [] || !Joins(merged[|merged| - 1], part) {
      AtomsAppend(merged, [part]);
      assert merged == [] ==> merged + [part] == [part];
    } else {
      var before, last := merged[..|merged| - 1], merged[|merged| - 1];
      assert merged == before + [last];
      AtomsAppend(before, [last]);
      AtomsAppend(before, [Join(last, part)]);
      AtomsOfOne(last);
      AtomsOfOne(Join(last, part));
      JoinAtoms(last, part);
      AppendIsAssociative(Atoms(before), PartAtoms(last), PartAtoms(part));
    }
  }

  /** Merging keeps all content, in order. */
  lemma {:induction false} MergeKeepsContent(parts: seq<Part>)
    ensures Atoms(Merge(parts)) == Atoms(parts)
  {
    if parts != [] {
      var before, last := parts[..|parts| - 1], parts[|parts| - 1];
      MergeKeepsContent(before);
      PushAtoms(Merge(before), last);
      assert parts == before + [last];
      AtomsAppend(before, [last]);
      AtomsOfOne(last);
    }
  }

  /** No text or thinking part is empty. */
  predicate NoEmptyRuns(parts: seq<Part>) {
    forall p :: p in parts ==> (p.Text? ==> p.text != []) && (p.Thinking? ==> p.thinking != [])
  }

  lemma {:induction false} MergeKeepsNonEmpty(parts: seq<Part>)
    requires NoEmptyRuns(parts)
    ensures NoEmptyRuns(Merge(parts))
  {
    if parts != [] {
      var before, last := parts[..|parts| - 1], parts[|parts| - 1];
      assert forall p :: p in before ==> p in parts;
      assert last in parts;
      MergeKeepsNonEmpty(before);
      PushKeepsNonEmpty(Merge(before), last);
    }
  }

  lemma PushKeepsNonEmpty(merged: seq<Part>, part: Part)
    requires NoEmptyRuns(merged) && NoEmptyRuns([part])
    ensures NoEmptyRuns(Push(merged, part))
  {
    assert part in [part];
    if merged != [] && Joins(merged[|merged| - 1], part) {
      var before, last := merged[..|merged| - 1], merged[|merged| - 1];
      assert last in merged && forall p :: p in before ==> p in merged;
      assert Push(merged, part) == before + [Join(last, part)];
    }
  }

  /** The first part of a merged sequence is determined by the content: it is its whole first run. */
  lemma FirstRun(p: seq<Part>, q: seq<Part>)
    requires p != [] && q != [] && NoAdjacentRuns(p)
    requires NoEmptyRuns(p) && NoEmptyRuns(q) && Atoms(p) == Atoms(q)
    ensures |PartAtoms(q[0])| <= |PartAtoms(p[0])|
  {
    var x, y := p[0], q[0];
    assert x in p && y in q;
    var k := |PartAtoms(x)|;
    assert Atoms(p)[0] == PartAtoms(x)[0] && Atoms(q)[0] == PartAtoms(y)[0];
    RunEnds(p);
    if k < |PartAtoms(y)| {
      RunContinues(q, k);
      assert false;
    }
  }

  /** After its first part's atoms, a merged sequence does not go on with the same kind of character. */
  lemma RunEnds(p: seq<Part>)
    requires p != [] && NoAdjacentRuns(p) && NoEmptyRuns(p)
    ensures var k := |PartAtoms(p[0])|;
            k < |Atoms(p)| ==>
              (p[0].Text? ==> !Atoms(p)[k].TextChar?) && (p[0].Thinking? ==> !Atoms(p)[k].ThinkingChar?)
  {
    if |p| > 1 {
      assert p[1] in p && p[1..][0] == p[1];
      assert Atoms(p)[|PartAtoms(p[0])|] == Atoms(p[1..])[0] == PartAtoms(p[1])[0];
      assert !Joins(p[0], p[1]);
    }
  }

  /** Within its first part, it does. */
  lemma RunContinues(q: seq<Part>, k: nat)
    requires q != [] && 0 < k < |PartAtoms(q[0])|
    ensures k < |Atoms(q)| && (q[0].Text? || q[0].Thinking?)
    ensures if q[0].Text? then Atoms(q)[0].TextChar? && Atoms(q)[k].TextChar?
            else Atoms(q)[0].ThinkingChar? && Atoms(q)[k].ThinkingChar?
  {
    assert Atoms(q)[0] == PartAtoms(q[0])[0] && Atoms(q)[k] == PartAtoms(q[0])[k];
  }

  lemma SameFirst(x: Part, y: Part)
    requires PartAtoms(x) == PartAtoms(y) != []
    ensures x == y
  {
    var atoms := PartAtoms(x);
    match x
    case Text(text) =>
      assert atoms[0] == TextChar(text[0]);
      assert |text| == |y.text| && forall i :: 0 <= i < |text| ==> PartAtoms(y)[i] == TextChar(text[i]);
    case Thinking(thinking) =>
      assert atoms[0] == ThinkingChar(thinking[0]);
      assert |thinking| == |y.thinking| && forall i :: 0 <= i < |thinking| ==>
          PartAtoms(y)[i] == ThinkingChar(thinking[i]);
    case _ => assert atoms[0] == Whole(x);
  }

  /** Merged sequences with the same content are the same. */
  lemma {:induction false} ContentDeterminesMerged(p: seq<Part>, q: seq<Part>)
    requires NoAdjacentRuns(p) && NoAdjacentRuns(q) && NoEmptyRuns(p) && NoEmptyRuns(q)
    requires Atoms(p) == Atoms(q)
    ensures p == q
  {
    NoContentIsEmpty(p);
    NoContentIsEmpty(q);
    if p != [] {
      FirstRun(p, q);
      FirstRun(q, p);
      SplitAtRun(PartAtoms(p[0]), Atoms(p[1..]), PartAtoms(q[0]), Atoms(q[1..]));
      FirstHasContent(p);
      SameFirst(p[0], q[0]);
      TailNoAdjacent(p);
      TailNoAdjacent(q);
      TailNoEmpty(p);
      TailNoEmpty(q);
      ContentDeterminesMerged(p[1..], q[1..]);
      assert p == [p[0]] + p[1..] && q == [q[0]] + q[1..];
    }
  }

  lemma SplitAtRun<T>(a: seq<T>, b: seq<T>, c: seq<T>, d: seq<T>)
    requires |a| == |c| && a + b == c + d
    ensures a == c && b == d
  {
    assert a == (a + b)[..|a|] && b == (a + b)[|a|..];
    assert c == (c + d)[..|a|] && d == (c + d)[|a|..];
  }

  lemma TailNoAdjacent(p: seq<Part>)
    requires p != [] && NoAdjacentRuns(p)
    ensures NoAdjacentRuns(p[1..])
  {
    forall i | 0 <= i < |p[1..]| - 1 ensures !Joins(p[1..][i], p[1..][i + 1]) {
      assert !Joins(p[i + 1], p[i + 2]);
    }
  }

  lemma TailNoEmpty(p: seq<Part>)
    requires p != [] && NoEmptyRuns(p)
    ensures NoEmptyRuns(p[1..])
  {
    assert forall x :: x in p[1..] ==> x in p;
  }

  lemma FirstHasContent(p: seq<Part>)
    requires p != [] && NoEmptyRuns(p)
    ensures PartAtoms(p[0]) != []
  {
    assert p[0] in p;
  }

  lemma NoContentIsEmpty(p: seq<Part>)
    requires NoEmptyRuns(p)
    ensures Atoms(p) == [] <==> p == []
  {
    if p != [] {
      assert p[0] in p;
      assert |PartAtoms(p[0])| > 0;
    }
  }
}
