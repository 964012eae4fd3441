// Python's order on strings, and sorted() over a set of them.
module StringOrder {
  // By code point, a prefix first.
  predicate Less(a: string, b: string) {
    if |b| == 0 then false
    else if |a| == 0 then true
    else if a[0] != b[0] then a[0] < b[0]
    else Less(a[1..], b[1..])
  }

  lemma {:induction false} LessTotal(a: string, b: string)
    ensures a == b || Less(a, b) || Less(b, a)
    ensures !(Less(a, b) && Less(b, a)) && !Less(a, a)
  {
    if |a| > 0 && |b| > 0 && a[0] == b[0] {
      LessTotal(a[1..], b[1..]);
      LessTotal(a[1..], a[1..]);
      if a[1..] == b[1..] { assert a == [a[0]] + a[1..] && b == [b[0]] + b[1..]; }
    } else if |a| > 0 {
      LessTotal(a[1..], a[1..]);
    }
  }

  lemma {:induction false} LessPrefix(p: string, a: string, b: string)
    requires Less(a, b)
    ensures Less(p + a, p + b)
  {
    if |p| == 0 {
      assert p + a == a && p + b == b;
    } else {
      LessPrefix(p[1..], a, b);
      assert (p + a)[1..] == p[1..] + a && (p + b)[1..] == p[1..] + b;
    }
  }

  lemma {:induction false} LessTrans(a: string, b: string, c: string)
    requires Less(a, b) && Less(b, c)
    ensures Less(a, c)
  {
    if |a| > 0 && a[0] == b[0] && b[0] == c[0] { LessTrans(a[1..], b[1..], c[1..]); }
  }

  // The least of a set of keys, the way sorted(...)[0] finds it.
  method LeastKey(keys: set<string>) returns (k: string)
    requires keys != {}
    ensures k in keys && forall x | x in keys :: x == k || Less(k, x)
  {
    k :| k in keys;
    var todo := keys - {k};
    while todo != {}
      invariant k in keys && todo <= keys
      invariant forall x | x in keys && x !in todo :: x == k || Less(k, x)
      decreases todo
    {
      var x :| x in todo;
      LessTotal(x, k);
      if Less(x, k) {
        forall y | y in keys && y !in todo ensures y == x || Less(x, y) {
          if y != k { LessTrans(x, k, y); }
        }
        k := x;
      }
      todo := todo - {x};
    }
  }

  // s lists the set in order, each string once.
  ghost predicate SortedOf(s: seq<string>, xs: set<string>) {
    && (forall x :: x in s <==> x in xs)
    && forall i, j | 0 <= i < j < |s| :: Less(s[i], s[j])
  }

  // There is one such list.
  lemma {:induction false} SortedOfIsOne(s: seq<string>, t: seq<string>, xs: set<string>)
    requires SortedOf(s, xs) && SortedOf(t, xs)
    ensures s == t
  {
    var a, b := set x | x in s, set x | x in t;
    assert a == xs && b == xs;
    assert (s == [] <==> a == {}) && (t == [] <==> b == {}) by {
      FirstIn(s);
      FirstIn(t);
    }
    if s != [] {
      var x, y := s[0], t[0];
      assert x in t && y in s;
      var i :| 0 <= i < |t| && t[i] == x;
      var j :| 0 <= j < |s| && s[j] == y;
      LessTotal(x, y);
      assert x == y;
      SortedTail(s, xs);
      SortedTail(t, xs);
      SortedOfIsOne(s[1..], t[1..], xs - {x});
    }
  }

  lemma FirstIn(s: seq<string>)
    ensures s != [] ==> exists x :: x in s
  {
    if s != [] { assert s[0] in s; }
  }

  lemma SortedTail(s: seq<string>, xs: set<string>)
    requires SortedOf(s, xs) && |s| > 0
    ensures SortedOf(s[1..], xs - {s[0]})
  {
    forall x ensures x in s[1..] <==> x in xs && x != s[0] {
      if x in s[1..] {
        var i :| 0 <= i < |s[1..]| && s[1..][i] == x;
        assert s[i + 1] == x && s[i + 1] in s;
        LessTotal(s[0], s[i + 1]);
      }
      if x in xs && x != s[0] {
        assert x in s;
        var i :| 0 <= i < |s| && s[i] == x;
        assert s[1..][i - 1] == x;
      }
    }
  }

  method Sort(xs: set<string>) returns (s: seq<string>)
    ensures SortedOf(s, xs)
  {
    var todo := xs;
    s := [];
    while todo != {}
      invariant todo <= xs
      invariant forall x :: x in s <==> x in xs && x !in todo
      invariant forall i, j | 0 <= i < j < |s| :: Less(s[i], s[j])
      invariant forall i, x | 0 <= i < |s| && x in todo :: Less(s[i], x)
      decreases todo
    {
      var k := LeastKey(todo);
      LessTotal(k, k);
      todo := todo - {k};
      s := s + [k];
    }
  }
}
