// The capped dictionary both calibration stores use: after an assignment, the
// entries with the least timestamp go until the cap is met
// (backend/wavr/calib_sample.py, backend/wavr/calib_session.py).
module OldestOut {
  import opened Prelude
  import opened PyDict

  // The place of the first entry with the least timestamp: min() over the keys.
  function Oldest<V>(d: Dict<string, V>, ts: V -> real): (i: nat)
    requires |d| > 0
    ensures i < |d|
  {
    if |d| == 1 then 0
    else
      var r := 1 + Oldest(d[1..], ts);
      if ts(d[0].1) <= ts(d[r].1) then 0 else r
  }

  lemma {:induction false} OldestIsFirstLeast<V>(d: Dict<string, V>, ts: V -> real, j: nat)
    requires j < |d|
    ensures ts(d[Oldest(d, ts)].1) <= ts(d[j].1)
    ensures j < Oldest(d, ts) ==> ts(d[Oldest(d, ts)].1) < ts(d[j].1)
  {
    if |d| > 1 {
      OldestIsFirstLeast(d[1..], ts, 0);
      if j > 0 { OldestIsFirstLeast(d[1..], ts, j - 1); }
    }
  }

  function Without<V>(d: Dict<string, V>, i: nat): (r: Dict<string, V>)
    requires i < |d|
  {
    d[..i] + d[i + 1..]
  }

  lemma DelAt<V>(d: Dict<string, V>, i: nat)
    requires Unique(d) && i < |d|
    ensures Del(d, d[i].0) == Without(d, i) && Unique(Without(d, i))
  {
    assert d == d[..i] + [d[i]] + d[i + 1..];
    DelMiddle(d[..i], d[i], d[i + 1..]);
    DelKeepsOrder(d, d[i].0);
  }

  function Evict<V>(d: Dict<string, V>, ts: V -> real, max: nat): (r: Dict<string, V>)
    ensures |r| == if |d| <= max then |d| else max
    decreases |d|
  {
    if |d| <= max then d else Evict(Without(d, Oldest(d, ts)), ts, max)
  }

  function Put<V>(d: Dict<string, V>, ts: V -> real, max: nat, k: string, v: V): (r: Dict<string, V>) {
    Evict(Set(d, k, v), ts, max)
  }

  // Eviction keeps keys distinct, only ever removes, and never removes an entry
  // that is newer than one it keeps.
  lemma {:induction false} EvictKeepsNewest<V>(d: Dict<string, V>, ts: V -> real, max: nat)
    requires Unique(d)
    ensures Unique(Evict(d, ts, max))
    ensures forall x | x in Evict(d, ts, max) :: x in d
    ensures forall x, y | x in Evict(d, ts, max) && y in d && y !in Evict(d, ts, max) :: ts(y.1) <= ts(x.1)
    decreases |d|
  {
    if |d| > max {
      var i := Oldest(d, ts);
      var rest := Without(d, i);
      DelAt(d, i);
      EvictKeepsNewest(rest, ts, max);
      var kept := Evict(rest, ts, max);
      forall x ensures x in rest <==> x in d && x != d[i] {}
      forall x | x in d ensures ts(d[i].1) <= ts(x.1) {
        var j :| 0 <= j < |d| && d[j] == x;
        OldestIsFirstLeast(d, ts, j);
      }
    }
  }

  lemma EvictOne<V>(d: Dict<string, V>, ts: V -> real)
    requires |d| >= 1
    ensures Evict(d, ts, |d| - 1) == Without(d, Oldest(d, ts))
  {
  }

  // One entry over the cap, an entry newer than none of the others is kept.
  lemma LastStays<V>(d: Dict<string, V>, ts: V -> real, x: (string, V))
    requires Unique(d + [x]) && |d| >= 1
    requires forall y | y in d :: ts(y.1) <= ts(x.1)
    ensures Get(Evict(d + [x], ts, |d|), x.0) == Some(x.1)
  {
    var s := d + [x];
    var i := Oldest(s, ts);
    assert s[0] in d && s[|d|] == x;
    OldestIsFirstLeast(s, ts, 0);
    OldestIsFirstLeast(s, ts, |d|);
    assert i < |d|;
    DelAt(s, i);
    var r := Without(s, i);
    EvictOne(s, ts);
    assert r[|r| - 1] == x;
    GetAt(r, |r| - 1);
  }

  // With no stored timestamp after the new one, what was just put is there
  // afterwards exactly when the cap leaves room for anything.
  lemma PutStays<V>(d: Dict<string, V>, ts: V -> real, max: nat, k: string, v: V)
    requires Unique(d) && |d| <= max
    requires forall x | x in d :: ts(x.1) <= ts(v)
    ensures Get(Put(d, ts, max, k, v), k) == if max >= 1 then Some(v) else None
  {
    SetShape(d, k, v);
    GetSet(d, k, v, k);
    if |Set(d, k, v)| > max && max >= 1 {
      assert |d| == max;
      LastStays(d, ts, (k, v));
    }
  }

  // The entry the next eviction takes: no timestamp is less, and every entry before it
  // has a greater one.
  ghost predicate GoesNext<V>(d: Dict<string, V>, ts: V -> real, j: nat) {
    && j < |d|
    && forall i | 0 <= i < |d| :: ts(d[j].1) <= ts(d[i].1) && (i < j ==> ts(d[j].1) < ts(d[i].1))
  }

  lemma GoesNextIsOldest<V>(d: Dict<string, V>, ts: V -> real, j: nat)
    requires |d| > 0
    ensures GoesNext(d, ts, j) <==> j == Oldest(d, ts)
  {
    var o := Oldest(d, ts);
    forall i | 0 <= i < |d| ensures ts(d[o].1) <= ts(d[i].1) && (i < o ==> ts(d[o].1) < ts(d[i].1)) {
      OldestIsFirstLeast(d, ts, i);
    }
    if GoesNext(d, ts, j) {
      assert ts(d[j].1) <= ts(d[o].1) && ts(d[o].1) <= ts(d[j].1);
      assert !(o < j) && !(j < o);
    }
  }

  // A newcomer no older than the rest does not change who goes next.
  lemma OldestAppend<V>(d: Dict<string, V>, ts: V -> real, x: (string, V))
    requires |d| > 0 && forall y | y in d :: ts(y.1) <= ts(x.1)
    ensures Oldest(d + [x], ts) == Oldest(d, ts)
  {
    var s, o := d + [x], Oldest(d, ts);
    GoesNextIsOldest(d, ts, o);
    assert d[o] in d;
    forall i | 0 <= i < |s| ensures ts(s[o].1) <= ts(s[i].1) && (i < o ==> ts(s[o].1) < ts(s[i].1)) {
      if i < |d| { assert s[i] == d[i]; }
    }
    GoesNextIsOldest(s, ts, o);
  }

  // A new key put into a full dictionary evicts exactly the entry that goes next, the
  // clock standing still or not.
  lemma EvictedExactly<V>(d: Dict<string, V>, ts: V -> real, k: string, v: V, j: nat)
    requires Unique(d) && j < |d| && !Has(d, k) && forall x | x in d :: ts(x.1) <= ts(v)
    ensures Get(Put(d, ts, |d|, k, v), d[j].0) == None <==> GoesNext(d, ts, j)
  {
    SetShape(d, k, v);
    var s, o := d + [(k, v)], Oldest(d, ts);
    OldestAppend(d, ts, (k, v));
    GoesNextIsOldest(d, ts, j);
    EvictOne(s, ts);
    DelAt(s, o);
    GetDel(s, s[o].0, d[j].0);
    GetAt(s, j);
    assert s[j] == d[j] && s[o] == d[o];
  }

  // One entry over the cap and every timestamp the same, the first entry goes.
  lemma TiedEvictsFirst<V>(d: Dict<string, V>, ts: V -> real, n: nat)
    requires Unique(d) && |d| == n + 1
    requires forall x | x in d :: ts(x.1) == ts(d[0].1)
    ensures Evict(d, ts, n) == d[1..] && Get(d[1..], d[0].0) == None
  {
    OldestIsFirstLeast(d, ts, 0);
    assert d[Oldest(d, ts)] in d;
    assert Without(d, 0) == d[1..];
    GetIffHas(d[1..], d[0].0);
    forall i | 0 <= i < |d[1..]| ensures d[1..][i].0 != d[0].0 { assert d[1..][i] == d[i + 1]; }
  }

  method OldestKey<V>(d: Dict<string, V>, ts: V -> real) returns (k: string)
    requires |d| > 0
    ensures k == d[Oldest(d, ts)].0
  {
    var i := 0;
    for j := 1 to |d|
      invariant i < j
      invariant forall n | 0 <= n < j :: ts(d[i].1) <= ts(d[n].1)
      invariant forall n | 0 <= n < i :: ts(d[i].1) < ts(d[n].1)
    {
      if ts(d[j].1) < ts(d[i].1) { i := j; }
    }
    OldestIsFirstLeast(d, ts, i);
    var o := Oldest(d, ts);
    assert ts(d[i].1) <= ts(d[o].1);
    k := d[i].0;
  }

  // The assignment and the eviction loop.
  method PutCapped<V>(d: Dict<string, V>, ts: V -> real, max: nat, k: string, v: V) returns (r: Dict<string, V>)
    requires Unique(d)
    ensures r == Put(d, ts, max, k, v) && Unique(r)
  {
    SetShape(d, k, v);
    r := Set(d, k, v);
    while |r| > max
      invariant Unique(r) && Evict(r, ts, max) == Put(d, ts, max, k, v)
      decreases |r|
    {
      var oldest := OldestKey(r, ts);
      DelAt(r, Oldest(r, ts));
      r := Del(r, oldest);
    }
  }
}
