/** `JSON.stringify` of an argument path. GraphQL names contain nothing JSON would escape. */
module PathJson {
  import opened ResolverSchema

  function Json(path: seq<string>): string {
    "[" + Items(path)
  }

  function Items(path: seq<string>): string {
    if path == [] then "]"
    else "\"" + path[0] + "\"" + (if |path| == 1 then "]" else "," + Items(path[1..]))
  }

  lemma JsonExample()
    ensures Json(["input", "id"]) == "[\"input\",\"id\"]"
  {
    var path := ["input", "id"];
    assert path[1..] == ["id"];
    assert Items(["id"]) == "\"id\"]";
  }

  lemma StartsWithQuote(x: string, rest: string)
    requires IsName(x)
    ensures (x + "\"" + rest)[0] == '\"' <==> x == []
  {
    if x != [] {
      assert x[0] in x && (x + "\"" + rest)[0] == x[0];
    }
  }

  /** A quoted name ends at its closing quote. */
  lemma {:induction false} QuoteSplits(x: string, rest: string, y: string, other: string)
    requires IsName(x) && IsName(y) && x + "\"" + rest == y + "\"" + other
    ensures x == y && rest == other
  {
    var s, t := x + "\"" + rest, y + "\"" + other;
    StartsWithQuote(x, rest);
    StartsWithQuote(y, other);
    if x == [] {
      assert rest == s[1..] && other == t[1..];
    } else {
      assert s[0] == x[0] && t[0] == y[0];
      assert s[1..] == x[1..] + "\"" + rest && t[1..] == y[1..] + "\"" + other;
      assert forall c :: c in x[1..] ==> c in x;
      assert forall c :: c in y[1..] ==> c in y;
      QuoteSplits(x[1..], rest, y[1..], other);
      assert x == [x[0]] + x[1..] && y == [y[0]] + y[1..];
    }
  }

  lemma {:induction false} ItemsInjective(p: seq<string>, q: seq<string>)
    requires forall x :: x in p || x in q ==> IsName(x)
    requires Items(p) == Items(q)
    ensures p == q
  {
    assert (Items(p)[0] == ']') == (p == []);
    assert (Items(q)[0] == ']') == (q == []);
    if p != [] && q != [] {
      var r := if |p| == 1 then "]" else "," + Items(p[1..]);
      var s := if |q| == 1 then "]" else "," + Items(q[1..]);
      assert Items(p)[1..] == p[0] + "\"" + r;
      assert Items(q)[1..] == q[0] + "\"" + s;
      assert p[0] in p && q[0] in q;
      QuoteSplits(p[0], r, q[0], s);
      assert (r[0] == ',') == (|p| > 1) && (s[0] == ',') == (|q| > 1);
      if |p| > 1 {
        assert r[1..] == Items(p[1..]) && s[1..] == Items(q[1..]);
        ItemsInjective(p[1..], q[1..]);
      }
      assert p == [p[0]] + p[1..] && q == [q[0]] + q[1..];
    }
  }

  /** Different paths have different JSON texts, so sorting by the text is a total order on paths. */
  lemma JsonInjective(p: seq<string>, q: seq<string>)
    requires forall x :: x in p || x in q ==> IsName(x)
    requires Json(p) == Json(q)
    ensures p == q
  {
    assert Json(p)[1..] == Items(p) && Json(q)[1..] == Items(q);
    ItemsInjective(p, q);
  }
}
