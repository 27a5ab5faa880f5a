/** Grouping whole lines into chunks of bounded size (`chunk_lines`). */
module ChunkLines {
  import opened Sequences

  function Concat(lines: seq<string>): string {
    if lines == [] then [] else Concat(lines[..|lines| - 1]) + lines[|lines| - 1]
  }

  function Flatten(groups: seq<seq<string>>): seq<string> {
    if groups == [] then [] else groups[0] + Flatten(groups[1..])
  }

  function Chunks(groups: seq<seq<string>>): seq<string> {
    seq(|groups|, i requires 0 <= i < |groups| => Concat(groups[i]))
  }

  /** The groups the loop makes of the remaining lines when it holds `current`. */
  function Grouped(current: seq<string>, lines: seq<string>, max: int): seq<seq<string>>
    decreases |lines|
  {
    if lines == [] then (if current == [] then [] else [current])
    else if |Concat(current)| + |lines[0]| > max && current != []
    then [current] + Grouped([lines[0]], lines[1..], max)
    else Grouped(current + [lines[0]], lines[1..], max)
  }

  /** `lines` are the text's lines with their terminators, as `splitlines` returns them. */
  method ChunkLines(lines: seq<string>, maxChars: int) returns (chunks: seq<string>)
    ensures chunks == Chunks(Grouped([], lines, maxChars))
  {
    chunks := [];
    var current: seq<string> := [];
    var size := 0;
    ghost var groups: seq<seq<string>> := [];
    for i := 0 to |lines|
      invariant size == |Concat(current)|
      invariant chunks == Chunks(groups)
      invariant groups + Grouped(current, lines[i..], maxChars) == Grouped([], lines, maxChars)
    {
      var line := lines[i];
      assert lines[i..][0] == line && lines[i..][1..] == lines[i + 1..];
      if size + |line| > maxChars && current != [] {
        AppendIsAssociative(groups, [current], Grouped([line], lines[i + 1..], maxChars));
        ChunksSnoc(groups, current);
        chunks := chunks + [Concat(current)];
        groups := groups + [current];
        current, size := [], 0;
      }
      ConcatSnoc(current, line);
      current := current + [line];
      size := size + |line|;
    }
    if current != [] {
      ChunksSnoc(groups, current);
      chunks := chunks + [Concat(current)];
    } else {
      AppendNothing(groups);
    }
  }

  lemma ChunksSnoc(groups: seq<seq<string>>, group: seq<string>)
    ensures Chunks(groups + [group]) == Chunks(groups) + [Concat(group)]
  {
  }

  lemma ConcatSnoc(lines: seq<string>, line: string)
    ensures Concat(lines + [line]) == Concat(lines) + line
  {
    assert (lines + [line])[..|lines|] == lines;
  }

  lemma {:induction false} ConcatAppend(a: seq<string>, b: seq<string>)
    ensures Concat(a + b) == Concat(a) + Concat(b)
  {
    if b == [] {
      assert a + b == a;
    } else {
      var n := |b| - 1;
      ConcatAppend(a, b[..n]);
      AppendLast(a, b);
      ConcatSnoc(a + b[..n], b[n]);
      AppendIsAssociative(Concat(a), Concat(b[..n]), b[n]);
    }
  }

  // ----- what a split must satisfy -----

  predicate Allowed(group: seq<string>, max: int) {
    group != [] && (|Concat(group)| <= max || |group| == 1)
  }

  /** A split of `lines` into whole-line groups, none over the limit unless it is a single line. */
  ghost predicate IsSplit(groups: seq<seq<string>>, lines: seq<string>, max: int) {
    Flatten(groups) == lines && forall g :: g in groups ==> Allowed(g, max)
  }

  lemma {:induction false} GroupedIsSplit(current: seq<string>, lines: seq<string>, max: int)
    requires current == [] || Allowed(current, max)
    ensures IsSplit(Grouped(current, lines, max), current + lines, max)
    decreases |lines|
  {
    if lines == [] {
      AppendNothing(current);
      assert current != [] ==> [current][1..] == [];
    } else {
      var line, rest := lines[0], lines[1..];
      assert lines == [line] + rest;
      ConcatSnoc(current, line);
      assert [line] == [] + [line];
      if |Concat(current)| + |line| > max && current != [] {
        GroupedIsSplit([line], rest, max);
        assert ([current] + Grouped([line], rest, max))[1..] == Grouped([line], rest, max);
      } else {
        GroupedIsSplit(current + [line], rest, max);
        AppendIsAssociative(current, [line], rest);
      }
    }
  }

  lemma ConcatOne(line: string)
    ensures Concat([line]) == line
  {
    assert Concat([]) == [];
    ConcatSnoc([], line);
  }

  lemma ChunksFirst(groups: seq<seq<string>>)
    requires groups != []
    ensures Chunks(groups) == [Concat(groups[0])] + Chunks(groups[1..])
  {
  }

  lemma {:induction false} ChunksConcat(groups: seq<seq<string>>)
    ensures Concat(Chunks(groups)) == Concat(Flatten(groups))
  {
    if groups != [] {
      var head, tail := groups[0], groups[1..];
      calc {
        Concat(Chunks(groups));
        { ChunksFirst(groups); }
        Concat([Concat(head)] + Chunks(tail));
        { ConcatAppend([Concat(head)], Chunks(tail)); }
        Concat([Concat(head)]) + Concat(Chunks(tail));
        { ConcatOne(Concat(head)); ChunksConcat(tail); }
        Concat(head) + Concat(Flatten(tail));
        { ConcatAppend(head, Flatten(tail)); }
        Concat(Flatten(groups));
      }
    }
  }

  /** The chunks concatenate back to the text, and only a single line can exceed the limit. */
  lemma ChunksAreFaithful(lines: seq<string>, max: int)
    ensures var groups := Grouped([], lines, max);
            && Concat(Chunks(groups)) == Concat(lines)
            && IsSplit(groups, lines, max)
            && forall g :: g in groups && |Concat(g)| > max ==> exists line :: line in lines && g == [line]
  {
    var groups := Grouped([], lines, max);
    GroupedIsSplit([], lines, max);
    assert [] + lines == lines;
    ChunksConcat(groups);
    forall g | g in groups && |Concat(g)| > max ensures exists line :: line in lines && g == [line] {
      FlattenMember(groups, g, g[0]);
    }
  }

  lemma {:induction false} FlattenMember(groups: seq<seq<string>>, g: seq<string>, line: string)
    requires g in groups && line in g
    ensures line in Flatten(groups)
  {
    if g != groups[0] {
      FlattenMember(groups[1..], g, line);
    }
  }

  lemma {:induction false} FlattenHas(groups: seq<seq<string>>, line: string) returns (g: seq<string>)
    requires line in Flatten(groups)
    ensures g in groups && line in g
  {
    if line in groups[0] {
      g := groups[0];
    } else {
      g := FlattenHas(groups[1..], line);
    }
  }

  lemma {:induction false} GroupHoldsLine(group: seq<string>, line: string)
    requires line in group
    ensures |line| <= |Concat(group)|
  {
    if line != group[|group| - 1] {
      GroupHoldsLine(group[..|group| - 1], line);
    }
  }

  /** All chunks are within the limit exactly when all lines are. */
  lemma WithinLimitIff(lines: seq<string>, max: int)
    ensures (forall g :: g in Grouped([], lines, max) ==> |Concat(g)| <= max) <==>
            (forall line :: line in lines ==> |line| <= max)
  {
    var groups := Grouped([], lines, max);
    ChunksAreFaithful(lines, max);
    if forall g :: g in groups ==> |Concat(g)| <= max {
      forall line | line in lines ensures |line| <= max {
        var g := FlattenHas(groups, line);
        GroupHoldsLine(g, line);
      }
    }
    forall line ensures Concat([line]) == line {
      ConcatOne(line);
    }
  }

  /** One line over the limit is a chunk over the limit. */
  lemma LongLineExample()
    ensures Chunks(Grouped([], ["ab"], 1)) == ["ab"] && |"ab"| > 1
  {
    assert ["ab"][1..] == [] && [] + ["ab"] == ["ab"];
    assert Grouped([], ["ab"], 1) == [["ab"]];
    ConcatOne("ab");
  }

  // ----- no split has fewer chunks -----

  /** How many of the lines the loop adds to a group of the given size. */
  function Fitting(size: nat, lines: seq<string>, max: int): (n: nat)
    ensures n <= |lines|
    decreases |lines|
  {
    if lines == [] || size + |lines[0]| > max then 0 else 1 + Fitting(size + |lines[0]|, lines[1..], max)
  }

  lemma {:induction false} GroupedFirst(current: seq<string>, lines: seq<string>, max: int)
    requires current != []
    ensures var n := Fitting(|Concat(current)|, lines, max);
            Grouped(current, lines, max) == [current + lines[..n]] + Grouped([], lines[n..], max)
    decreases |lines|
  {
    if lines == [] || |Concat(current)| + |lines[0]| > max {
      GroupFull(current, lines, max);
      assert current + lines[..0] == current && lines[0..] == lines;
    } else {
      var n := Fitting(|Concat(current)|, lines, max);
      ConcatSnoc(current, lines[0]);
      GroupedFirst(current + [lines[0]], lines[1..], max);
      TakeOneMore(current, lines, n);
    }
  }

  lemma GroupFull(current: seq<string>, lines: seq<string>, max: int)
    requires current != [] && (lines == [] || |Concat(current)| + |lines[0]| > max)
    ensures Grouped(current, lines, max) == [current] + Grouped([], lines, max)
  {
    assert lines != [] ==> [] + [lines[0]] == [lines[0]];
  }

  lemma TakeOneMore(current: seq<string>, lines: seq<string>, n: nat)
    requires 0 < n <= |lines|
    ensures current + [lines[0]] + lines[1..][..n - 1] == current + lines[..n]
    ensures lines[1..][n - 1..] == lines[n..]
  {
  }

  /** All lines that keep a group within the limit are taken. */
  lemma {:induction false} FittingIsMost(size: nat, lines: seq<string>, max: int, k: nat)
    requires k <= |lines| && size + |Concat(lines[..k])| <= max
    ensures k <= Fitting(size, lines, max)
    decreases |lines|
  {
    if k > 0 {
      var line, rest := lines[0], lines[1..];
      assert lines[..k] == [line] + rest[..k - 1];
      ConcatAppend([line], rest[..k - 1]);
      ConcatOne(line);
      FittingIsMost(size + |line|, rest, max, k - 1);
    }
  }

  /** What is left of an allowed group is taken whole by the group the loop starts there. */
  lemma StartedGroupTakes(left: seq<string>, after: seq<string>, max: int)
    requires Allowed(left, max)
    ensures 1 + Fitting(|left[0]|, left[1..] + after, max) >= |left|
  {
    if |left| > 1 {
      assert left == [left[0]] + left[1..];
      ConcatAppend([left[0]], left[1..]);
      ConcatOne(left[0]);
      assert (left[1..] + after)[..|left| - 1] == left[1..];
      FittingIsMost(|left[0]|, left[1..] + after, max, |left| - 1);
    }
  }

  /** The loop starts a group at the first line, and starts afresh after it. */
  lemma StartGroup(line: string, rest: seq<string>, max: int)
    ensures var n := Fitting(|line|, rest, max);
            |Grouped([], [line] + rest, max)| == 1 + |Grouped([], rest[n..], max)|
  {
    ConcatOne(line);
    assert ([line] + rest)[1..] == rest && [] + [line] == [line];
    GroupedFirst([line], rest, max);
  }

  /** One more chunk takes the loop past what is left of another split's group. */
  lemma GroupPasses(left: seq<string>, after: seq<string>, max: int) returns (j: nat)
    requires Allowed(left, max)
    ensures j <= |after|
    ensures |Grouped([], left + after, max)| == 1 + |Grouped([], after[j..], max)|
  {
    var rest := left[1..] + after;
    var n := Fitting(|left[0]|, rest, max);
    StartedGroupTakes(left, after, max);
    StartGroup(left[0], rest, max);
    j := n + 1 - |left|;
    HeadAndRest(left, after);
    DropPast(left[1..], after, n);
  }

  lemma RestIsAllowed(group: seq<string>, max: int, i: nat)
    requires Allowed(group, max) && i < |group|
    ensures Allowed(group[i..], max)
  {
    assert group == group[..i] + group[i..];
    ConcatAppend(group[..i], group[i..]);
  }

  /** From any line on, the loop is past the first group of another split after at most one more chunk. */
  lemma OneChunkPasses(first: seq<string>, after: seq<string>, max: int, i: nat) returns (j: nat)
    requires Allowed(first, max) && i <= |first| + |after|
    ensures j <= |after|
    ensures |Grouped([], (first + after)[i..], max)| <= 1 + |Grouped([], after[j..], max)|
  {
    if i >= |first| {
      j := i - |first|;
      DropPast(first, after, i);
    } else {
      RestIsAllowed(first, max, i);
      DropWithin(first, after, i);
      j := GroupPasses(first[i..], after, max);
    }
  }

  /** Greedy grouping stays ahead of any split, from any line on. */
  lemma {:induction false} GreedyStaysAhead(groups: seq<seq<string>>, lines: seq<string>, max: int, i: nat)
    requires IsSplit(groups, lines, max) && i <= |lines|
    ensures |Grouped([], lines[i..], max)| <= |groups|
    decreases |groups|
  {
    if groups == [] {
      assert lines[i..] == [];
    } else {
      TailIsSplit(groups, lines, max);
      var after := Flatten(groups[1..]);
      var j := OneChunkPasses(groups[0], after, max, i);
      GreedyStaysAhead(groups[1..], after, max, j);
    }
  }

  lemma TailIsSplit(groups: seq<seq<string>>, lines: seq<string>, max: int)
    requires IsSplit(groups, lines, max) && groups != []
    ensures Allowed(groups[0], max) && IsSplit(groups[1..], Flatten(groups[1..]), max)
    ensures lines == groups[0] + Flatten(groups[1..])
  {
    assert forall g :: g in groups[1..] ==> g in groups;
    assert groups[0] in groups;
  }

  lemma HeadAndRest(left: seq<string>, after: seq<string>)
    requires left != []
    ensures left + after == [left[0]] + (left[1..] + after)
  {
  }

  lemma DropWithin(first: seq<string>, after: seq<string>, i: nat)
    requires i <= |first|
    ensures (first + after)[i..] == first[i..] + after
  {
  }

  lemma DropPast(first: seq<string>, after: seq<string>, i: nat)
    requires |first| <= i <= |first| + |after|
    ensures (first + after)[i..] == after[i - |first|..]
  {
  }

  /** No whole-line split within the limit has fewer chunks. */
  lemma FewestChunks(groups: seq<seq<string>>, lines: seq<string>, max: int)
    requires IsSplit(groups, lines, max)
    ensures |Chunks(Grouped([], lines, max))| <= |groups|
  {
    assert lines[0..] == lines;
    GreedyStaysAhead(groups, lines, max, 0);
  }
}
