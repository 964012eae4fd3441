// The latest feet pixel per camera during a walk-to-calibrate session
// (backend/wavr/calib_sample.py).
module CalibSample {
  import opened Prelude
  import opened PyDict
  import opened OldestOut

  // What float() makes of an argument.
  datatype Num = Finite(r: real) | Infinite | NaN | Unreadable

  datatype Reading = Reading(feet: seq<Num>, width: Num, height: Num, confidence: Num)
  datatype Sample = Sample(u: real, v: real, width: real, height: real, confidence: real)
  datatype Stamped = Stamped(sample: Sample, ts: real)
  datatype Fresh = Fresh(sample: Sample, age: real)

  type Store = Dict<string, Stamped>

  function Ts(s: Stamped): real { s.ts }

  // The sample a reading is, if every number in it is finite and the image has a size.
  function Accept(x: Reading): (s: Option<Sample>)
    ensures s.Some? ==> s.value.width > 0.0 && s.value.height > 0.0
  {
    if |x.feet| < 2 then None
    else if !(x.feet[0].Finite? && x.feet[1].Finite? && x.width.Finite? && x.height.Finite? && x.confidence.Finite?)
    then None
    else if x.width.r <= 0.0 || x.height.r <= 0.0 then None
    else Some(Sample(x.feet[0].r, x.feet[1].r, x.width.r, x.height.r, x.confidence.r))
  }

  // A reading is taken exactly when it has two feet coordinates, all its numbers are
  // finite and the image has a size; and it is taken as it is.
  lemma AcceptExactly(x: Reading)
    ensures Accept(x).Some? <==>
              && |x.feet| >= 2 && x.feet[0].Finite? && x.feet[1].Finite?
              && x.width.Finite? && x.height.Finite? && x.confidence.Finite?
              && x.width.r > 0.0 && x.height.r > 0.0
    ensures Accept(x).Some? ==>
              var s := Accept(x).value;
              && x.feet[0] == Finite(s.u) && x.feet[1] == Finite(s.v)
              && x.width == Finite(s.width) && x.height == Finite(s.height) && x.confidence == Finite(s.confidence)
  {
  }

  datatype Op = Record(name: string, reading: Reading, now: real) | Clear(name: string)

  predicate Stores(op: Op) { op.Record? && Accept(op.reading).Some? }

  function StampedOf(op: Op): Stamped
    requires Stores(op)
  {
    Stamped(Accept(op.reading).value, op.now)
  }

  function Apply(d: Store, max: nat, op: Op): (r: Store) {
    if op.Clear? then Del(d, op.name)
    else if Stores(op) then Put(d, Ts, max, op.name, StampedOf(op))
    else d
  }

  // The store after a history of calls.
  function Run(max: nat, ops: seq<Op>): (d: Store) {
    if |ops| == 0 then [] else Apply(Run(max, ops[..|ops| - 1]), max, ops[|ops| - 1])
  }

  // -- The reference: a list with the most recently recorded name in front -----------

  function Cut(s: Store, n: nat): (r: Store) { if |s| <= n then s else s[..n] }

  function Touch(r: Store, k: string, v: Stamped): (t: Store) { [(k, v)] + Del(r, k) }

  // Capped: recording moves a name to the front and the names past the cap fall off.
  function RecentCapped(max: nat, ops: seq<Op>): (r: Store) {
    if |ops| == 0 then []
    else
      var op := ops[|ops| - 1];
      var r := RecentCapped(max, ops[..|ops| - 1]);
      if op.Clear? then Del(r, op.name)
      else if Stores(op) then Cut(Touch(r, op.name, StampedOf(op)), max)
      else r
  }

  // Every name ever recorded with its last valid sample, the most recent first.
  function Recent(ops: seq<Op>): (r: Store) {
    if |ops| == 0 then []
    else
      var op := ops[|ops| - 1];
      var r := Recent(ops[..|ops| - 1]);
      if Stores(op) then Touch(r, op.name, StampedOf(op)) else r
  }

  // The last valid sample recorded for a name.
  function LastOf(ops: seq<Op>, k: string): (s: Option<Stamped>) {
    if |ops| == 0 then None
    else
      var op := ops[|ops| - 1];
      if Stores(op) && op.name == k then Some(StampedOf(op)) else LastOf(ops[..|ops| - 1], k)
  }

  // The clock moves forward between one recording and the next.
  ghost predicate Ticking(ops: seq<Op>) {
    forall i, j | 0 <= i < j < |ops| && ops[i].Record? && ops[j].Record? :: ops[i].now < ops[j].now
  }

  ghost predicate Newest(r: Store) {
    forall i, j | 0 <= i < j < |r| :: r[i].1.ts > r[j].1.ts
  }

  ghost predicate Before(r: Store, now: real) {
    forall x | x in r :: x.1.ts < now
  }

  ghost predicate Same(d: Store, r: Store) {
    && Unique(d) && Unique(r) && |d| == |r|
    && forall x :: x in d <==> x in r
  }

  lemma InGet(d: Store, x: (string, Stamped))
    requires Unique(d) && x in d
    ensures Get(d, x.0) == Some(x.1)
  {
    var i :| 0 <= i < |d| && d[i] == x;
    GetAt(d, i);
  }

  lemma SameGet(d: Store, r: Store, k: string)
    requires Same(d, r)
    ensures Get(d, k) == Get(r, k)
  {
    GetIffHas(d, k);
    GetIffHas(r, k);
    forall x | x in d ensures Get(d, x.0) == Some(x.1) && Get(r, x.0) == Some(x.1) {
      InGet(d, x);
      InGet(r, x);
    }
    assert Get(d, k).Some? ==> (k, Get(d, k).value) in d;
    assert Get(r, k).Some? ==> (k, Get(r, k).value) in d;
  }

  lemma {:induction false} DelHolds(d: Store, k: string, x: (string, Stamped))
    requires Unique(d)
    ensures x in Del(d, k) <==> x in d && x.0 != k
  {
    DelIsFilter(d, k);
    if x in d && x.0 != k && d[0].0 != k {
      if x != d[0] { DelHolds(d[1..], k, x); }
    }
  }

  lemma TouchShape(r: Store, k: string, v: Stamped)
    requires Unique(r)
    ensures Unique(Touch(r, k, v))
    ensures |Touch(r, k, v)| == if Has(r, k) then |r| else |r| + 1
    ensures forall x :: x in Touch(r, k, v) <==> x == (k, v) || (x in r && x.0 != k)
  {
    DelKeepsOrder(r, k);
    DelIsFilter(r, k);
    var t := Touch(r, k, v);
    forall x ensures x in t <==> x == (k, v) || (x in r && x.0 != k) { DelHolds(r, k, x); }
    forall i, j | 0 <= i < j < |t| ensures t[i].0 != t[j].0 {
      assert t[j] == Del(r, k)[j - 1] && Del(r, k)[j - 1].0 != k;
    }
  }

  // Deleting keeps the entries left in their order, newest first.
  lemma {:induction false} DelNewest(r: Store, k: string)
    requires Unique(r) && Newest(r)
    ensures Newest(Del(r, k))
  {
    if |r| > 0 && r[0].0 != k {
      DelNewest(r[1..], k);
      DelIsFilter(r[1..], k);
      var d := Del(r, k);
      var rest := Del(r[1..], k);
      forall i, j | 0 <= i < j < |d| ensures d[i].1.ts > d[j].1.ts {
        if i == 0 {
          assert rest[j - 1] in r[1..];
          var n :| 0 <= n < |r[1..]| && r[1..][n] == rest[j - 1];
          assert r[n + 1] == d[j];
        }
      }
    }
  }

  lemma TouchNewest(r: Store, k: string, v: Stamped)
    requires Unique(r) && Newest(r) && Before(r, v.ts)
    ensures Newest(Touch(r, k, v))
  {
    DelNewest(r, k);
    DelIsFilter(r, k);
    var t := Touch(r, k, v);
    forall i, j | 0 <= i < j < |t| ensures t[i].1.ts > t[j].1.ts {
      assert t[j] == Del(r, k)[j - 1] && Del(r, k)[j - 1] in r;
    }
  }

  // Taking out the entry at the end of the list is dropping that end.
  lemma WithoutLast(d: Store, r: Store, i: nat)
    requires Same(d, r) && i < |d| && d[i] == r[|r| - 1]
    ensures Same(Without(d, i), r[..|r| - 1])
  {
    DelAt(d, i);
    var e, front, last := Without(d, i), r[..|r| - 1], r[|r| - 1];
    forall x ensures x in e <==> x in front {
      DelHolds(d, last.0, x);
      if x in front {
        var q :| 0 <= q < |front| && front[q] == x;
        assert r[q].0 != last.0;
      }
      if x in e {
        var q :| 0 <= q < |r| && r[q] == x;
        assert front[q] == x;
      }
    }
  }

  lemma WithoutOther(d: Store, r: Store, i: nat)
    requires Same(d, r) && i < |d| && d[i] != r[|r| - 1]
    ensures r[|r| - 1] in Without(d, i) && r[|r| - 1] !in r[..|r| - 1]
  {
    var last := r[|r| - 1];
    assert last in d;
    var q :| 0 <= q < |d| && d[q] == last;
    assert Without(d, i)[if q < i then q else q - 1] == last;
  }

  // Evicting is dropping the end of the list exactly when the end goes next.
  lemma EvictIsCutExactly(d: Store, r: Store, n: nat)
    requires Same(d, r) && |r| == n + 1
    ensures Same(Evict(d, Ts, n), Cut(r, n)) <==> d[Oldest(d, Ts)] == r[n]
  {
    var i := Oldest(d, Ts);
    EvictOne(d, Ts);
    if d[i] == r[n] { WithoutLast(d, r, i); } else { WithoutOther(d, r, i); }
  }

  // Under timestamps that fall along the list, its end goes next.
  lemma EvictIsCut(d: Store, r: Store, n: nat)
    requires Same(d, r) && Newest(r) && |r| == n + 1
    ensures Same(Evict(d, Ts, n), Cut(r, n))
  {
    var i := Oldest(d, Ts);
    assert r[n] in d;
    var m :| 0 <= m < |d| && d[m] == r[n];
    OldestIsFirstLeast(d, Ts, m);
    assert d[i] in r;
    var j :| 0 <= j < |r| && r[j] == d[i];
    assert j == n;
    EvictIsCutExactly(d, r, n);
  }

  lemma PutIsTouch(d: Store, r: Store, max: nat, k: string, v: Stamped)
    requires Same(d, r) && Newest(r) && Before(r, v.ts) && |d| <= max
    ensures Same(Put(d, Ts, max, k, v), Cut(Touch(r, k, v), max))
    ensures Newest(Cut(Touch(r, k, v), max))
  {
    var s := Set(d, k, v);
    var t := Touch(r, k, v);
    SetShape(d, k, v);
    TouchShape(r, k, v);
    TouchNewest(r, k, v);
    assert Has(d, k) <==> Has(r, k) by {
      SameGet(d, r, k);
      GetIffHas(d, k);
      GetIffHas(r, k);
    }
    forall x ensures x in s <==> x in t {}
    if |s| > max { EvictIsCut(s, t, max); }
  }

  // -- The store is that list ----------------------------------------------------------

  ghost predicate RecordedAt(ops: seq<Op>, now: real) {
    exists i | 0 <= i < |ops| :: ops[i].Record? && ops[i].now == now
  }

  ghost predicate Dated(ops: seq<Op>, r: Store) {
    forall x | x in r :: RecordedAt(ops, x.1.ts)
  }

  // In every history whose clock moves forward, with calls to clear anywhere in it,
  // the store holds what the capped most-recent-first list holds.
  lemma {:induction false} StoreIsRecentCapped(max: nat, ops: seq<Op>)
    requires Ticking(ops)
    ensures Same(Run(max, ops), RecentCapped(max, ops)) && |Run(max, ops)| <= max
    ensures Newest(RecentCapped(max, ops)) && Dated(ops, RecentCapped(max, ops))
  {
    if |ops| > 0 {
      var prior := ops[..|ops| - 1];
      var op := ops[|ops| - 1];
      StoreIsRecentCapped(max, prior);
      var d := Run(max, prior);
      var r := RecentCapped(max, prior);
      forall x | x in r ensures RecordedAt(ops, x.1.ts) && (op.Record? ==> x.1.ts < op.now) {
        var i :| 0 <= i < |prior| && prior[i].Record? && prior[i].now == x.1.ts;
        assert ops[i] == prior[i];
      }
      if op.Clear? {
        ClearSame(d, r, op.name);
        DelNewest(r, op.name);
      } else if Stores(op) {
        PutIsTouch(d, r, max, op.name, StampedOf(op));
        TouchShape(r, op.name, StampedOf(op));
        assert ops[|ops| - 1].now == StampedOf(op).ts;
      }
    }
  }

  lemma ClearSame(d: Store, r: Store, k: string)
    requires Same(d, r)
    ensures Same(Del(d, k), Del(r, k))
    ensures |Del(d, k)| <= |d| && forall x | x in Del(r, k) :: x in r
  {
    SameGet(d, r, k);
    GetIffHas(d, k);
    GetIffHas(r, k);
    DelKeepsOrder(d, k);
    DelKeepsOrder(r, k);
    DelIsFilter(d, k);
    DelIsFilter(r, k);
    forall x ensures x in Del(d, k) <==> x in Del(r, k) {
      DelHolds(d, k, x);
      DelHolds(r, k, x);
    }
  }

  lemma {:induction false} CutDelCut(r: Store, k: string, n: nat)
    requires n >= 1
    ensures Cut(Del(Cut(r, n), k), n - 1) == Cut(Del(r, k), n - 1)
  {
    if |r| > n {
      var c := Cut(r, n);
      assert c[0] == r[0];
      if r[0].0 == k {
        assert c[1..] == r[1..n];
      } else if n > 1 {
        CutDelCut(r[1..], k, n - 1);
        assert c[1..] == Cut(r[1..], n - 1);
        CutCons(r[0], Del(Cut(r[1..], n - 1), k), n - 1);
        CutCons(r[0], Del(r[1..], k), n - 1);
      }
    }
  }

  lemma CutCons(x: (string, Stamped), r: Store, n: nat)
    requires n >= 1
    ensures Cut([x] + r, n) == [x] + Cut(r, n - 1)
  {
  }

  // Without clear, capping at every step is capping once at the end.
  lemma {:induction false} CappedIsCut(max: nat, ops: seq<Op>)
    requires forall i | 0 <= i < |ops| :: ops[i].Record?
    ensures RecentCapped(max, ops) == Cut(Recent(ops), max)
  {
    if |ops| > 0 {
      var prior := ops[..|ops| - 1];
      var op := ops[|ops| - 1];
      CappedIsCut(max, prior);
      if Stores(op) && max >= 1 {
        var r := Recent(prior);
        var x := (op.name, StampedOf(op));
        CutDelCut(r, op.name, max);
        CutCons(x, Del(Cut(r, max), op.name), max);
        CutCons(x, Del(r, op.name), max);
      }
    }
  }

  // The list names each camera once, under the last valid sample recorded for it.
  lemma {:induction false} RecentIsLast(ops: seq<Op>, k: string)
    requires forall i | 0 <= i < |ops| :: ops[i].Record?
    ensures Unique(Recent(ops)) && Get(Recent(ops), k) == LastOf(ops, k)
  {
    if |ops| > 0 {
      var prior := ops[..|ops| - 1];
      var op := ops[|ops| - 1];
      RecentIsLast(prior, k);
      if Stores(op) {
        var r := Recent(prior);
        TouchShape(r, op.name, StampedOf(op));
        GetDel(r, op.name, k);
        assert Touch(r, op.name, StampedOf(op))[1..] == Del(r, op.name);
      }
    }
  }

  // With a clock that moves forward and no clear, the store holds exactly the latest
  // valid sample of each of the max most recently recorded distinct names.
  lemma StoreIsMostRecent(max: nat, ops: seq<Op>, k: string)
    requires Ticking(ops) && forall i | 0 <= i < |ops| :: ops[i].Record?
    ensures var recent := Recent(ops);
            && Unique(recent) && Newest(recent) && Get(recent, k) == LastOf(ops, k)
            && Get(Run(max, ops), k) == Get(Cut(recent, max), k)
            && |Run(max, ops)| == |Cut(recent, max)|
  {
    StoreIsRecentCapped(max, ops);
    CappedIsCut(max, ops);
    SameGet(Run(max, ops), RecentCapped(max, ops), k);
    RecentIsLast(ops, k);
    var n := |Recent(ops)|;
    StoreIsRecentCapped(n, ops);
    CappedIsCut(n, ops);
  }

  // -- A clock that may stand still -----------------------------------------------------

  ghost predicate NotBack(ops: seq<Op>) {
    forall i, j | 0 <= i < j < |ops| && ops[i].Record? && ops[j].Record? :: ops[i].now <= ops[j].now
  }

  lemma {:induction false} RunIsBounded(max: nat, ops: seq<Op>)
    ensures Unique(Run(max, ops)) && |Run(max, ops)| <= max && Dated(ops, Run(max, ops))
  {
    if |ops| > 0 {
      var prior := ops[..|ops| - 1];
      var op := ops[|ops| - 1];
      RunIsBounded(max, prior);
      var d := Run(max, prior);
      forall x | x in d ensures RecordedAt(ops, x.1.ts) {
        var i :| 0 <= i < |prior| && prior[i].Record? && prior[i].now == x.1.ts;
        assert ops[i] == prior[i];
      }
      if op.Clear? {
        DelIsFilter(d, op.name);
        DelKeepsOrder(d, op.name);
      } else if Stores(op) {
        SetShape(d, op.name, StampedOf(op));
        EvictKeepsNewest(Set(d, op.name, StampedOf(op)), Ts, max);
        assert ops[|ops| - 1].now == StampedOf(op).ts;
        forall x | x in Run(max, ops) ensures RecordedAt(ops, x.1.ts) {
          assert x in Set(d, op.name, StampedOf(op));
        }
      }
    }
  }

  // The camera just recorded is never the one evicted, unless the cap is zero, even
  // when the clock stands still.
  lemma JustRecordedStays(max: nat, ops: seq<Op>)
    requires NotBack(ops) && |ops| > 0 && Stores(ops[|ops| - 1])
    ensures Get(Run(max, ops), ops[|ops| - 1].name)
            == if max >= 1 then Some(StampedOf(ops[|ops| - 1])) else None
  {
    var prior := ops[..|ops| - 1];
    var op := ops[|ops| - 1];
    RunIsBounded(max, prior);
    var d := Run(max, prior);
    forall x | x in d ensures Ts(x.1) <= Ts(StampedOf(op)) {
      var i :| 0 <= i < |prior| && prior[i].Record? && prior[i].now == x.1.ts;
      assert ops[i] == prior[i];
    }
    PutStays(d, Ts, max, op.name, StampedOf(op));
  }

  // The least recently recorded name is the one a new name would evict.
  ghost predicate LeastRecentGoes(d: Store, r: Store, max: nat, k: string) {
    |d| == max >= 1 && !Has(d, k) ==> exists j | 0 <= j < |d| :: |r| > 0 && d[j] == r[|r| - 1] && GoesNext(d, Ts, j)
  }

  lemma LeastRecentIsOldest(d: Store, r: Store, max: nat, k: string)
    requires Same(d, r) && |d| == max >= 1 && !Has(d, k)
    ensures LeastRecentGoes(d, r, max, k) <==> d[Oldest(d, Ts)] == r[|r| - 1]
  {
    var o := Oldest(d, Ts);
    GoesNextIsOldest(d, Ts, o);
    if LeastRecentGoes(d, r, max, k) {
      var j :| 0 <= j < |d| && d[j] == r[|r| - 1] && GoesNext(d, Ts, j);
      GoesNextIsOldest(d, Ts, j);
    }
  }

  lemma HasSame(d: Store, r: Store, k: string)
    requires Same(d, r)
    ensures Has(d, k) <==> Has(r, k)
  {
    SameGet(d, r, k);
    GetIffHas(d, k);
    GetIffHas(r, k);
  }

  lemma NewNameAgreesExactly(d: Store, r: Store, k: string, v: Stamped)
    requires Same(d, r) && |d| >= 1 && !Has(d, k) && forall x | x in d :: x.1.ts <= v.ts
    requires Same(d + [(k, v)], [(k, v)] + r)
    ensures Same(Evict(d + [(k, v)], Ts, |d|), Cut([(k, v)] + r, |d|)) <==> LeastRecentGoes(d, r, |d|, k)
  {
    var s, t := d + [(k, v)], [(k, v)] + r;
    EvictIsCutExactly(s, t, |d|);
    assert forall x | x in d :: Ts(x.1) <= Ts(v);
    OldestAppend(d, Ts, (k, v));
    LeastRecentIsOldest(d, r, |d|, k);
    assert t[|d|] == r[|r| - 1] && s[Oldest(d, Ts)] == d[Oldest(d, Ts)];
  }

  // With a clock that does not go back, recording agrees with the list exactly when
  // the least recently recorded name is the one that goes.
  lemma PutAgreesExactly(d: Store, r: Store, max: nat, k: string, v: Stamped)
    requires Same(d, r) && |d| <= max && forall x | x in d :: x.1.ts <= v.ts
    ensures Same(Put(d, Ts, max, k, v), Cut(Touch(r, k, v), max)) <==> LeastRecentGoes(d, r, max, k)
  {
    var s, t := Set(d, k, v), Touch(r, k, v);
    SetShape(d, k, v);
    TouchShape(r, k, v);
    HasSame(d, r, k);
    forall x ensures x in s <==> x in t {}
    if |s| > max && max >= 1 {
      DelIsFilter(r, k);
      NewNameAgreesExactly(d, r, k, v);
    }
  }

  lemma StepAgreesExactly(max: nat, ops: seq<Op>, n: nat)
    requires NotBack(ops) && n < |ops| && Same(Run(max, ops[..n]), RecentCapped(max, ops[..n]))
    ensures Same(Run(max, ops[..n + 1]), RecentCapped(max, ops[..n + 1]))
            <==> (Stores(ops[n]) ==>
                    LeastRecentGoes(Run(max, ops[..n]), RecentCapped(max, ops[..n]), max, ops[n].name))
  {
    var prior, op := ops[..n], ops[n];
    var d, r := Run(max, prior), RecentCapped(max, prior);
    assert ops[..n + 1][..n] == prior && ops[..n + 1][n] == op;
    RunIsBounded(max, prior);
    if op.Clear? {
      ClearSame(d, r, op.name);
    } else if Stores(op) {
      forall x | x in d ensures x.1.ts <= StampedOf(op).ts {
        var i :| 0 <= i < |prior| && prior[i].Record? && prior[i].now == x.1.ts;
        assert ops[i] == prior[i];
      }
      PutAgreesExactly(d, r, max, op.name, StampedOf(op));
    }
  }

  lemma {:induction false} AgreesUpTo(max: nat, ops: seq<Op>, n: nat)
    requires NotBack(ops) && n <= |ops|
    requires forall m | 0 <= m < n && Stores(ops[m]) ::
               LeastRecentGoes(Run(max, ops[..m]), RecentCapped(max, ops[..m]), max, ops[m].name)
    ensures Same(Run(max, ops[..n]), RecentCapped(max, ops[..n]))
  {
    if n > 0 {
      AgreesUpTo(max, ops, n - 1);
      StepAgreesExactly(max, ops, n - 1);
    }
  }

  // With a clock that may stand still, the store is the most-recent-first list all
  // along exactly when each new name finds the least recently recorded one first
  // among the oldest.
  lemma AgreesExactly(max: nat, ops: seq<Op>)
    requires NotBack(ops)
    ensures (forall n | 0 <= n <= |ops| :: Same(Run(max, ops[..n]), RecentCapped(max, ops[..n])))
            <==> (forall n | 0 <= n < |ops| && Stores(ops[n]) ::
                    LeastRecentGoes(Run(max, ops[..n]), RecentCapped(max, ops[..n]), max, ops[n].name))
  {
    if forall n | 0 <= n <= |ops| :: Same(Run(max, ops[..n]), RecentCapped(max, ops[..n])) {
      forall n | 0 <= n < |ops| && Stores(ops[n])
        ensures LeastRecentGoes(Run(max, ops[..n]), RecentCapped(max, ops[..n]), max, ops[n].name)
      {
        StepAgreesExactly(max, ops, n);
      }
    }
    if forall n | 0 <= n < |ops| && Stores(ops[n]) ::
         LeastRecentGoes(Run(max, ops[..n]), RecentCapped(max, ops[..n]), max, ops[n].name)
    {
      forall n | 0 <= n <= |ops| ensures Same(Run(max, ops[..n]), RecentCapped(max, ops[..n])) {
        AgreesUpTo(max, ops, n);
      }
    }
  }

  // It need not: when the store is full and the instant has not changed, the camera
  // recorded last of all is evicted by the next new one if it was the first to enter.
  lemma TieEvictsJustRecorded(d: Store, v: Stamped, k: string, w: Stamped)
    requires Unique(d) && |d| >= 2 && !Has(d, k)
    requires w.ts == v.ts && forall x | x in d :: x.1.ts == v.ts
    ensures var touched := Put(d, Ts, |d|, d[0].0, v);
            && Get(touched, d[0].0) == Some(v)
            && Get(Put(touched, Ts, |d|, k, w), d[0].0) == None
  {
    var first := d[0].0;
    SetShape(d, first, v);
    GetSet(d, first, v, first);
    var touched := Set(d, first, v);
    assert d[0] in d;
    forall i | 0 <= i < |touched| ensures touched[i].0 == d[i].0 && touched[i].1.ts == v.ts { assert d[i] in d; }
    TiedNewcomer(touched, k, w);
  }

  lemma TiedNewcomer(d: Store, k: string, w: Stamped)
    requires Unique(d) && |d| >= 1 && forall i | 0 <= i < |d| :: d[i].0 != k && d[i].1.ts == w.ts
    ensures Get(Put(d, Ts, |d|, k, w), d[0].0) == None
  {
    SetShape(d, k, w);
    TiedEvictsFirst(d + [(k, w)], Ts, |d|);
  }

  // -- The object ------------------------------------------------------------------------

  class CalibSampleStore {
    const maxAge: real
    const maxCameras: nat
    var samples: Store

    ghost predicate Valid()
      reads this
    {
      Unique(samples)
    }

    constructor (maxAge: real, maxCameras: nat)
      ensures Valid() && samples == Run(maxCameras, [])
      ensures this.maxAge == maxAge && this.maxCameras == maxCameras
    {
      this.maxAge, this.maxCameras := maxAge, maxCameras;
      samples := [];
    }

    method Record(name: string, reading: Reading, now: real)
      requires Valid()
      modifies this
      ensures Valid() && samples == Apply(old(samples), maxCameras, Op.Record(name, reading, now))
    {
      var s := Accept(reading);
      if s.None? { return; }
      samples := PutCapped(samples, Ts, maxCameras, name, Stamped(s.value, now));
    }

    // The camera's sample and its age if it is no older than the cap, else nothing.
    method Latest(name: string, maxAgeOverride: Option<real>, now: real) returns (r: Option<Fresh>)
      requires Valid()
      ensures var cap := if maxAgeOverride.Some? then maxAgeOverride.value else maxAge;
              && (r.Some? <==> exists x | x in samples :: x.0 == name && now - x.1.ts <= cap)
              && (r.Some? ==> (name, Stamped(r.value.sample, now - r.value.age)) in samples)
    {
      var cap := if maxAgeOverride.Some? then maxAgeOverride.value else maxAge;
      var s := Get(samples, name);
      GetIffHas(samples, name);
      forall x | x in samples ensures Get(samples, x.0) == Some(x.1) { InGet(samples, x); }
      if s.None? { return None; }
      assert (name, s.value) in samples;
      var age := now - s.value.ts;
      if age > cap { return None; }
      assert Stamped(s.value.sample, now - age) == s.value;
      r := Some(Fresh(s.value.sample, age));
    }

    method Clear(name: string)
      requires Valid()
      modifies this
      ensures Valid() && samples == Apply(old(samples), maxCameras, Op.Clear(name))
    {
      DelKeepsOrder(samples, name);
      samples := Del(samples, name);
    }
  }
}
