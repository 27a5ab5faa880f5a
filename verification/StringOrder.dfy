/** Code-unit ordering of strings, and sorting by string keys. */
module StringOrder {
  import opened Sequences

  /** Lexicographic order by code unit: `-1`, `0` or `1`, as `compareCodeUnits` and Rust's `cmp` answer. */
  function Compare(a: string, b: string): int {
    if a == [] then (if b == [] then 0 else -1)
    else if b == [] then 1
    else if a[0] < b[0] then -1
    else if b[0] < a[0] then 1
    else Compare(a[1..], b[1..])
  }

  predicate Less(a: string, b: string) {
    Compare(a, b) < 0
  }

  lemma {:induction false} CompareEqual(a: string, b: string)
    ensures Compare(a, b) == 0 <==> a == b
    ensures Compare(a, b) == -Compare(b, a)
  {
    if a != [] && b != [] && a[0] == b[0] {
      CompareEqual(a[1..], b[1..]);
      assert a == [a[0]] + a[1..] && b == [b[0]] + b[1..];
    }
  }

  lemma {:induction false} LessTransitive(a: string, b: string, c: string)
    requires Less(a, b) && Less(b, c)
    ensures Less(a, c)
  {
    if a != [] && b != [] && c != [] && a[0] == b[0] == c[0] {
      LessTransitive(a[1..], b[1..], c[1..]);
    }
  }

  /** The strings agree up to `k`, where `a` ends or has the smaller code unit. */
  predicate LessAt(a: string, b: string, k: nat) {
    && k <= |a| && k < |b| && a[..k] == b[..k]
    && (k == |a| || a[k] < b[k])
  }

  /** The order is decided by the first difference, a proper prefix being smaller. */
  lemma {:induction false} LessIff(a: string, b: string)
    ensures Less(a, b) <==> exists k: nat :: LessAt(a, b, k)
  {
    if a == [] || b == [] || a[0] != b[0] {
      assert Less(a, b) ==> LessAt(a, b, 0);
    } else {
      LessIff(a[1..], b[1..]);
      if k: nat :| LessAt(a[1..], b[1..], k) {
        assert a[..k + 1] == [a[0]] + a[1..][..k] && b[..k + 1] == [b[0]] + b[1..][..k];
        assert LessAt(a, b, k + 1);
      }
      if k: nat :| LessAt(a, b, k) {
        assert a[1..][..k - 1] == a[..k][1..] && b[1..][..k - 1] == b[..k][1..];
        assert LessAt(a[1..], b[1..], k - 1);
      }
    }
  }

  function Itself(x: string): string {
    x
  }

  /** Strictly increasing keys, so no key occurs twice. */
  ghost predicate Increasing<T(!new)>(key: T -> string, xs: seq<T>) {
    forall i, j :: 0 <= i < j < |xs| ==> Less(key(xs[i]), key(xs[j]))
  }

  ghost predicate DistinctKeys<T(!new)>(key: T -> string, xs: seq<T>) {
    forall i, j :: 0 <= i < j < |xs| ==> key(xs[i]) != key(xs[j])
  }

  function InsertBy<T(!new)>(key: T -> string, x: T, xs: seq<T>): seq<T> {
    if xs == [] then [x]
    else if Less(key(xs[0]), key(x)) then [xs[0]] + InsertBy(key, x, xs[1..])
    else [x] + xs
  }

  /** A stable sort by key. */
  function SortBy<T(!new)>(key: T -> string, xs: seq<T>): seq<T> {
    if xs == [] then [] else InsertBy(key, xs[0], SortBy(key, xs[1..]))
  }

  lemma {:induction false} InsertMembers<T(!new)>(key: T -> string, x: T, xs: seq<T>, y: T)
    ensures y in InsertBy(key, x, xs) <==> y == x || y in xs
    ensures |InsertBy(key, x, xs)| == |xs| + 1
  {
    if xs != [] && Less(key(xs[0]), key(x)) {
      InsertMembers(key, x, xs[1..], y);
    }
    assert xs != [] ==> xs == [xs[0]] + xs[1..];
  }

  lemma {:induction false} InsertIncreasing<T(!new)>(key: T -> string, x: T, xs: seq<T>)
    requires Increasing(key, xs) && forall y :: y in xs ==> key(y) != key(x)
    ensures Increasing(key, InsertBy(key, x, xs))
  {
    if xs == [] {
    } else if Less(key(xs[0]), key(x)) {
      InsertIncreasing(key, x, xs[1..]);
      var rest := InsertBy(key, x, xs[1..]);
      forall j | 0 <= j < |rest| ensures Less(key(xs[0]), key(rest[j])) {
        InsertMembers(key, x, xs[1..], rest[j]);
        assert rest[j] in rest;
        if key(rest[j]) != key(x) {
          var k :| 0 <= k < |xs[1..]| && xs[1..][k] == rest[j];
          assert xs[k + 1] == rest[j];
        }
      }
      assert InsertBy(key, x, xs) == [xs[0]] + rest;
    } else {
      CompareEqual(key(xs[0]), key(x));
      forall j | 0 <= j < |xs| ensures Less(key(x), key(xs[j])) {
        if j > 0 {
          LessTransitive(key(x), key(xs[0]), key(xs[j]));
        }
      }
    }
  }

  /** Sorting keeps the members and puts distinct keys in increasing order. */
  lemma {:induction false} SortCorrect<T(!new)>(key: T -> string, xs: seq<T>)
    ensures forall y :: y in SortBy(key, xs) <==> y in xs
    ensures |SortBy(key, xs)| == |xs|
    ensures DistinctKeys(key, xs) ==> Increasing(key, SortBy(key, xs))
  {
    if xs != [] {
      var head, rest := xs[0], xs[1..];
      var sorted := SortBy(key, rest);
      SortCorrect(key, rest);
      InsertMembers(key, head, sorted, head);
      forall y ensures y in SortBy(key, xs) <==> y in xs {
        InsertMembers(key, head, sorted, y);
        assert xs == [head] + rest;
      }
      if DistinctKeys(key, xs) {
        DistinctTail(key, xs);
        forall y | y in sorted ensures key(y) != key(head) {
          assert y in rest;
        }
        InsertIncreasing(key, head, sorted);
      }
    }
  }

  lemma DistinctTail<T(!new)>(key: T -> string, xs: seq<T>)
    requires xs != [] && DistinctKeys(key, xs)
    ensures DistinctKeys(key, xs[1..])
    ensures forall y :: y in xs[1..] ==> key(y) != key(xs[0])
  {
    var rest := xs[1..];
    forall i, j | 0 <= i < j < |rest| ensures key(rest[i]) != key(rest[j]) {
      assert rest[i] == xs[i + 1] && rest[j] == xs[j + 1];
    }
    forall y | y in rest ensures key(y) != key(xs[0]) {
      var k :| 0 <= k < |rest| && rest[k] == y;
      assert xs[k + 1] == y;
    }
  }

  /** There is only one increasing sequence with given members. */
  lemma {:induction false} IncreasingUnique<T(!new)>(key: T -> string, xs: seq<T>, ys: seq<T>)
    requires Increasing(key, xs) && Increasing(key, ys)
    requires forall z :: z in xs <==> z in ys
    ensures xs == ys
  {
    if xs == [] {
      if ys != [] {
        HasMember(ys);
        assert false;
      }
    } else {
      assert xs[0] in xs;
      var j :| 0 <= j < |ys| && ys[j] == xs[0];
      assert ys[0] in ys;
      var i :| 0 <= i < |xs| && xs[i] == ys[0];
      CompareEqual(key(xs[0]), key(ys[0]));
      assert i == 0 && j == 0;
      forall z ensures z in xs[1..] <==> z in ys[1..] {
        TailMember(key, xs, z);
        TailMember(key, ys, z);
      }
      IncreasingUnique(key, xs[1..], ys[1..]);
      assert xs == [xs[0]] + xs[1..] && ys == [ys[0]] + ys[1..];
    }
  }

  lemma TailMember<T(!new)>(key: T -> string, xs: seq<T>, z: T)
    requires xs != [] && Increasing(key, xs)
    ensures z in xs[1..] <==> z in xs && z != xs[0]
  {
    CompareEqual(key(xs[0]), key(xs[0]));
    if z in xs && z != xs[0] {
      var k :| 0 <= k < |xs| && xs[k] == z;
      assert xs[1..][k - 1] == z;
    }
  }

  /** Sorting forgets the order it was given: same members under distinct keys sort to the same sequence. */
  lemma SortForgetsOrder<T(!new)>(key: T -> string, xs: seq<T>, ys: seq<T>)
    requires DistinctKeys(key, xs) && DistinctKeys(key, ys)
    requires forall z :: z in xs <==> z in ys
    ensures SortBy(key, xs) == SortBy(key, ys)
  {
    SortCorrect(key, xs);
    SortCorrect(key, ys);
    IncreasingUnique(key, SortBy(key, xs), SortBy(key, ys));
  }
}
