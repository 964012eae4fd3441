// How an anchor's polygon is stored as text: "x,y;x,y;..." at four decimals
// (_dump_polygon and _load_polygon of backend/wavr/anchors.py).
module PolygonText {
  import opened Prelude
  import opened Text
  import opened Digits

  type Point = (real, real)

  // The digits of n, at least k + 1 of them.
  function DigitsPast(n: nat, k: nat): (s: string)
    decreases k
  {
    if k == 0 then DigitsOf(n) else DigitsPast(n / 10, k - 1) + [DigitChar(n % 10)]
  }

  lemma {:induction false} DigitsPastValue(n: nat, k: nat)
    ensures |DigitsPast(n, k)| >= k + 1 && AllDigits(DigitsPast(n, k)) && Value(DigitsPast(n, k)) == n
    decreases k
  {
    if k == 0 {
      DigitsOfValue(n);
    } else {
      DigitsPastValue(n / 10, k - 1);
      AppendDigit(DigitsPast(n / 10, k - 1), n % 10);
    }
  }

  // -- Rounding to four decimals -------------------------------------------------------------

  // The nearest integer to r, ties to even.
  function Nearest(r: real): (n: int)
    ensures -0.5 <= n as real - r <= 0.5
  {
    var f := r.Floor;
    var d := r - f as real;
    if d < 0.5 then f else if d > 0.5 then f + 1 else if f % 2 == 0 then f else f + 1
  }

  function Scaled(x: real): (n: nat) {
    var m := Nearest((if x < 0.0 then -x else x) * 10000.0);
    if m < 0 then 0 else m
  }

  // The value four decimals keep.
  function Rounded(x: real): (r: real) {
    if x < 0.0 then -(Scaled(x) as real / 10000.0) else Scaled(x) as real / 10000.0
  }

  predicate Whole(r: real) { r.Floor as real == r }

  lemma NearestExactly(r: real)
    ensures Nearest(r) as real == r <==> Whole(r)
    ensures r >= 0.0 ==> Nearest(r) >= 0
  {
  }

  lemma WholeNegated(r: real)
    ensures Whole(-r) <==> Whole(r)
  {
    if Whole(r) { assert -r == (-(r.Floor)) as real; }
    if Whole(-r) { assert r == (-((-r).Floor)) as real; }
  }

  // Rounding gives back the input exactly when it has no fifth decimal, and is
  // otherwise within half a unit of the fourth.
  lemma RoundedExactly(x: real)
    ensures Rounded(x) == x <==> Whole(x * 10000.0)
    ensures -0.00005 <= Rounded(x) - x <= 0.00005
  {
    var y := if x < 0.0 then -x else x;
    NearestExactly(y * 10000.0);
    WholeNegated(x * 10000.0);
    assert y * 10000.0 == if x < 0.0 then -(x * 10000.0) else x * 10000.0;
    assert Scaled(x) == Nearest(y * 10000.0);
  }

  // -- One coordinate ----------------------------------------------------------------------------

  // f"{x:.4f}"
  function Show(x: real): (s: string) {
    DigitsPastValue(Scaled(x), 4);
    Signed(x < 0.0, WithPoint(DigitsPast(Scaled(x), 4), 4))
  }

  function WithPoint(d: string, k: nat): (s: string)
    requires |d| > k
  {
    d[..|d| - k] + ['.'] + d[|d| - k..]
  }

  function Signed(negative: bool, s: string): (r: string) { if negative then ['-'] + s else s }

  function Pow10(n: nat): (p: real)
    ensures p > 0.0
  {
    if n == 0 then 1.0 else 10.0 * Pow10(n - 1)
  }

  // float() on an optional minus sign and digits with at most one point among them.
  function ReadUnsigned(s: string): (x: Option<real>) {
    var cut := Split(s, '.');
    if |cut| == 1 && |s| > 0 && AllDigits(s) then Some(Value(s) as real)
    else if |cut| == 2 && |cut[0] + cut[1]| > 0 && AllDigits(cut[0] + cut[1])
    then Some(Value(cut[0] + cut[1]) as real / Pow10(|cut[1]|))
    else None
  }

  function Read(s: string): (x: Option<real>) {
    if |s| > 0 && s[0] == '-' then
      var u := ReadUnsigned(s[1..]);
      if u.Some? then Some(-u.value) else None
    else ReadUnsigned(s)
  }

  predicate NumberChar(c: char) { '0' <= c <= '9' || c == '-' || c == '.' }

  lemma DigitsHaveNo(s: string, c: char)
    requires AllDigits(s) && !('0' <= c <= '9')
    ensures c !in s
  {
  }

  // An unsigned decimal: digits, the point, digits.
  lemma UnsignedReads(i: string, f: string)
    requires AllDigits(i + f) && |i| > 0
    ensures ReadUnsigned(i + ['.'] + f) == Some(Value(i + f) as real / Pow10(|f|))
  {
    forall n | 0 <= n < |i| ensures '0' <= i[n] <= '9' { assert (i + f)[n] == i[n]; }
    forall n | 0 <= n < |f| ensures '0' <= f[n] <= '9' { assert (i + f)[|i| + n] == f[n]; }
    DigitsHaveNo(i, '.');
    DigitsHaveNo(f, '.');
    SplitCons(i, f, '.');
    SplitNone(f, '.');
    var cut := Split(i + ['.'] + f, '.');
    assert cut == [i, f];
  }

  lemma PointedChars(d: string, k: nat)
    requires AllDigits(d) && |d| > k
    ensures forall c | c in WithPoint(d, k) :: NumberChar(c)
  {
  }

  lemma Pow10Of4()
    ensures Pow10(4) == 10000.0
  {
    assert Pow10(1) == 10.0 && Pow10(2) == 100.0 && Pow10(3) == 1000.0;
  }

  lemma PointedReads(d: string)
    requires AllDigits(d) && |d| > 4
    ensures ReadUnsigned(WithPoint(d, 4)) == Some(Value(d) as real / 10000.0)
    ensures |WithPoint(d, 4)| > 0 && WithPoint(d, 4)[0] != '-'
  {
    var i, f := d[..|d| - 4], d[|d| - 4..];
    assert d == i + f;
    UnsignedReads(i, f);
    assert WithPoint(d, 4) == i + ['.'] + f && |f| == 4;
    Pow10Of4();
    assert WithPoint(d, 4)[0] == d[0];
  }

  lemma SignedReads(negative: bool, s: string, v: real)
    requires ReadUnsigned(s) == Some(v) && |s| > 0 && s[0] != '-'
    ensures Read(Signed(negative, s)) == Some(if negative then -v else v)
  {
    if negative { assert Signed(negative, s)[1..] == s; }
  }

  lemma ShowReads(x: real)
    ensures Read(Show(x)) == Some(Rounded(x))
    ensures forall c | c in Show(x) :: NumberChar(c)
  {
    DigitsPastValue(Scaled(x), 4);
    var d := DigitsPast(Scaled(x), 4);
    PointedReads(d);
    PointedChars(d, 4);
    SignedReads(x < 0.0, WithPoint(d, 4), Scaled(x) as real / 10000.0);
  }

  // -- The polygon ----------------------------------------------------------------------------------

  function ShowPoint(p: Point): (s: string) { Show(p.0) + [','] + Show(p.1) }

  function ShowPoints(poly: seq<Point>): (r: seq<string>)
    ensures |r| == |poly|
  {
    if |poly| == 0 then [] else [ShowPoint(poly[0])] + ShowPoints(poly[1..])
  }

  function Dump(poly: seq<Point>): (s: string) {
    if |poly| == 0 then "" else Join(ShowPoints(poly), ';')
  }

  // A stored point, or nothing when it is malformed.
  function ReadPoint(part: string): (p: Option<Point>) {
    var cut := Split(part, ',');
    if |cut| == 2 && Read(cut[0]).Some? && Read(cut[1]).Some? then Some((Read(cut[0]).value, Read(cut[1]).value))
    else None
  }

  function ReadPoints(parts: seq<string>): (poly: seq<Point>) {
    if |parts| == 0 then []
    else
      var p := ReadPoint(parts[|parts| - 1]);
      ReadPoints(parts[..|parts| - 1]) + if p.Some? then [p.value] else []
  }

  function Load(text: string): (poly: seq<Point>) { ReadPoints(Split(text, ';')) }

  function RoundedPoint(p: Point): (r: Point) { (Rounded(p.0), Rounded(p.1)) }

  lemma ShowPointReads(p: Point)
    ensures ReadPoint(ShowPoint(p)) == Some(RoundedPoint(p))
    ensures ';' !in ShowPoint(p)
  {
    ShowReads(p.0);
    ShowReads(p.1);
    assert ',' !in Show(p.0) && ',' !in Show(p.1);
    PairReads(Show(p.0), Show(p.1));
  }

  lemma PairReads(a: string, b: string)
    requires ',' !in a && ',' !in b && Read(a).Some? && Read(b).Some?
    ensures ReadPoint(a + [','] + b) == Some((Read(a).value, Read(b).value))
  {
    SplitCons(a, b, ',');
    SplitNone(b, ',');
  }

  lemma {:induction false} ShowPointsAt(poly: seq<Point>, i: nat)
    requires i < |poly|
    ensures ShowPoints(poly)[i] == ShowPoint(poly[i])
  {
    if i > 0 {
      ShowPointsAt(poly[1..], i - 1);
      assert poly[1..][i - 1] == poly[i];
      assert ShowPoints(poly)[i] == ShowPoints(poly[1..])[i - 1];
    }
  }

  lemma {:induction false} ReadPointsAll(parts: seq<string>, poly: seq<Point>, n: nat)
    requires n <= |parts| == |poly| && forall i | 0 <= i < |parts| :: ReadPoint(parts[i]) == Some(poly[i])
    ensures ReadPoints(parts[..n]) == poly[..n]
  {
    if n > 0 {
      ReadPointsAll(parts, poly, n - 1);
      assert parts[..n][..n - 1] == parts[..n - 1] && poly[..n] == poly[..n - 1] + [poly[n - 1]];
    }
  }

  // Reading back what was stored gives every point, in order, at four decimals.
  lemma LoadDump(poly: seq<Point>)
    ensures |Load(Dump(poly))| == |poly|
    ensures forall i | 0 <= i < |poly| :: Load(Dump(poly))[i] == RoundedPoint(poly[i])
  {
    if |poly| == 0 {
      assert Split("", ';') == [""];
      assert Split("", ',') == [""];
      assert ReadPoint("").None?;
      assert |[""][..0]| == 0;
    } else {
      var parts := ShowPoints(poly);
      forall i | 0 <= i < |poly| ensures ReadPoint(parts[i]) == Some(RoundedPoint(poly[i])) && ';' !in parts[i] {
        ShowPointsAt(poly, i);
        ShowPointReads(poly[i]);
      }
      SplitJoin(parts, ';');
      ReadPointsAll(parts, seq(|poly|, i requires 0 <= i < |poly| => RoundedPoint(poly[i])), |poly|);
      assert parts[..|parts|] == parts;
    }
  }

  predicate FourDecimals(p: Point) { Whole(p.0 * 10000.0) && Whole(p.1 * 10000.0) }

  lemma PointExactly(p: Point)
    ensures RoundedPoint(p) == p <==> FourDecimals(p)
  {
    RoundedExactly(p.0);
    RoundedExactly(p.1);
  }

  lemma EachPointExactly(loaded: seq<Point>, poly: seq<Point>)
    requires |loaded| == |poly| && forall i | 0 <= i < |poly| :: loaded[i] == RoundedPoint(poly[i])
    ensures loaded == poly <==> forall i | 0 <= i < |poly| :: FourDecimals(poly[i])
  {
    forall i | 0 <= i < |poly| ensures loaded[i] == poly[i] <==> FourDecimals(poly[i]) { PointExactly(poly[i]); }
  }

  // The stored polygon reads back as the very same one exactly when no coordinate
  // has a fifth decimal.
  lemma LoadDumpExactly(poly: seq<Point>)
    ensures Load(Dump(poly)) == poly <==> forall i | 0 <= i < |poly| :: FourDecimals(poly[i])
  {
    LoadDump(poly);
    EachPointExactly(Load(Dump(poly)), poly);
  }

  // _load_polygon's loop: empty and malformed parts are passed over.
  method LoadPolygon(text: string) returns (poly: seq<Point>)
    ensures poly == Load(text)
  {
    var parts := Split(text, ';');
    poly := [];
    for i := 0 to |parts|
      invariant poly == ReadPoints(parts[..i])
    {
      assert parts[..i + 1][..i] == parts[..i];
      if parts[i] == "" {
        assert Split("", ',') == [""];
        continue;
      }
      var p := ReadPoint(parts[i]);
      if p.Some? { poly := poly + [p.value]; }
    }
    assert parts[..|parts|] == parts;
  }
}
