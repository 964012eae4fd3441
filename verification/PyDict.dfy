// An insertion-ordered dictionary: assigning to a key that is present keeps its
// place, a new key goes to the end, and iteration follows the order.
module PyDict {
  import opened Prelude

  type Dict<K, V> = seq<(K, V)>

  ghost predicate Unique<K, V>(d: Dict<K, V>) {
    forall i, j | 0 <= i < j < |d| :: d[i].0 != d[j].0
  }

  ghost predicate Has<K, V>(d: Dict<K, V>, k: K) {
    exists i | 0 <= i < |d| :: d[i].0 == k
  }

  function Get<K(==), V>(d: Dict<K, V>, k: K): (r: Option<V>) {
    if |d| == 0 then None
    else if d[0].0 == k then Some(d[0].1)
    else Get(d[1..], k)
  }

  function Set<K(==), V>(d: Dict<K, V>, k: K, v: V): (r: Dict<K, V>) {
    if |d| == 0 then [(k, v)]
    else if d[0].0 == k then [(k, v)] + d[1..]
    else [d[0]] + Set(d[1..], k, v)
  }

  function Del<K(==), V>(d: Dict<K, V>, k: K): (r: Dict<K, V>) {
    if |d| == 0 then []
    else if d[0].0 == k then d[1..]
    else [d[0]] + Del(d[1..], k)
  }

  // Get finds exactly the keys that occur, and what it finds is stored.
  lemma {:induction false} GetIffHas<K, V>(d: Dict<K, V>, k: K)
    ensures Get(d, k).Some? <==> Has(d, k)
    ensures Get(d, k).Some? ==> exists i | 0 <= i < |d| :: d[i] == (k, Get(d, k).value)
  {
    if |d| > 0 && d[0].0 != k {
      GetIffHas(d[1..], k);
      if Has(d, k) {
        var i :| 0 <= i < |d| && d[i].0 == k;
        assert d[1..][i - 1].0 == k;
      }
    } else if |d| > 0 {
      assert d[0] == (k, Get(d, k).value);
    }
  }

  lemma {:induction false} GetAt<K, V>(d: Dict<K, V>, i: nat)
    requires Unique(d) && i < |d|
    ensures Get(d, d[i].0) == Some(d[i].1)
  {
    if i > 0 {
      assert d[1..][i - 1] == d[i];
      GetAt(d[1..], i - 1);
    }
  }

  lemma {:induction false} GetSet<K, V>(d: Dict<K, V>, k: K, v: V, q: K)
    ensures Get(Set(d, k, v), q) == if q == k then Some(v) else Get(d, q)
  {
    if |d| > 0 && d[0].0 != k {
      GetSet(d[1..], k, v, q);
      assert Set(d, k, v)[1..] == Set(d[1..], k, v);
    } else if |d| > 0 {
      assert Set(d, k, v)[1..] == d[1..];
    }
  }

  // Assigning keeps every key in its place and appends at most one.
  lemma {:induction false} SetShape<K, V>(d: Dict<K, V>, k: K, v: V)
    requires Unique(d)
    ensures Unique(Set(d, k, v))
    ensures |Set(d, k, v)| == if Has(d, k) then |d| else |d| + 1
    ensures forall i | 0 <= i < |d| :: Set(d, k, v)[i] == if d[i].0 == k then (k, v) else d[i]
    ensures !Has(d, k) ==> Set(d, k, v) == d + [(k, v)]
  {
    if |d| > 0 && d[0].0 != k {
      SetShape(d[1..], k, v);
      var s := Set(d[1..], k, v);
      assert d == [d[0]] + d[1..];
      forall i | 0 <= i < |d|
        ensures Set(d, k, v)[i] == if d[i].0 == k then (k, v) else d[i]
      {
        if i > 0 { assert d[1..][i - 1] == d[i] && Set(d, k, v)[i] == s[i - 1]; }
      }
    } else if |d| > 0 {
      assert d[0].0 == k;
      assert Has(d, k);
    }
  }

  lemma {:induction false} GetDel<K, V>(d: Dict<K, V>, k: K, q: K)
    requires Unique(d)
    ensures Unique(Del(d, k))
    ensures Get(Del(d, k), q) == if q == k then None else Get(d, q)
  {
    if |d| > 0 && d[0].0 != k {
      GetDel(d[1..], k, q);
      assert Del(d, k)[1..] == Del(d[1..], k);
      DelIsFilter(d, k);
      DelKeepsOrder(d, k);
    } else if |d| > 0 {
      if q == k {
        GetIffHas(d[1..], k);
        forall i | 0 <= i < |d[1..]| ensures d[1..][i].0 != k { assert d[i + 1].0 != d[0].0; }
      }
    }
  }

  // The entries left after a deletion, in order.
  lemma {:induction false} DelIsFilter<K, V>(d: Dict<K, V>, k: K)
    requires Unique(d)
    ensures forall i | 0 <= i < |Del(d, k)| :: Del(d, k)[i] in d && Del(d, k)[i].0 != k
    ensures |Del(d, k)| == if Has(d, k) then |d| - 1 else |d|
    ensures !Has(d, k) ==> Del(d, k) == d
  {
    if |d| > 0 && d[0].0 != k {
      DelIsFilter(d[1..], k);
      assert d == [d[0]] + d[1..];
    } else if |d| > 0 {
      forall i | 0 <= i < |d[1..]| ensures d[1..][i] in d && d[1..][i].0 != k {
        assert d[1..][i] == d[i + 1];
      }
      assert Has(d, k);
    }
  }

  lemma {:induction false} DelKeepsOrder<K, V>(d: Dict<K, V>, k: K)
    requires Unique(d)
    ensures Unique(Del(d, k))
  {
    if |d| > 0 && d[0].0 != k {
      DelKeepsOrder(d[1..], k);
      DelIsFilter(d[1..], k);
      var r := Del(d[1..], k);
      forall i, j | 0 <= i < j < |Del(d, k)| ensures Del(d, k)[i].0 != Del(d, k)[j].0 {
        assert r[j - 1] in d[1..];
        var q :| 0 <= q < |d[1..]| && d[1..][q] == r[j - 1];
        assert d[q + 1] == r[j - 1];
      }
    }
  }

  // Deleting the key of the entry in the middle removes that entry alone.
  lemma {:induction false} DelMiddle<K, V>(a: Dict<K, V>, x: (K, V), b: Dict<K, V>)
    requires Unique(a + [x] + b)
    ensures Del(a + [x] + b, x.0) == a + b
  {
    var d := a + [x] + b;
    if |a| == 0 {
      assert d[0] == x && d[1..] == b && a + b == b;
    } else {
      assert d[0] == a[0] && d[|a|] == x;
      assert d[1..] == a[1..] + [x] + b;
      DelMiddle(a[1..], x, b);
      assert a + b == [a[0]] + (a[1..] + b);
    }
  }
}
