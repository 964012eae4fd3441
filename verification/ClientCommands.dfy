// The native client command contract: how a named command and its arguments
// become one HTTP request (backend/wavr/client_commands.py).
module ClientCommands {
  import opened Prelude
  import opened Text
  import opened StringOrder
  import opened Json
  import opened PercentEncoding

  // A JSON value whose text is UTF-8 bytes, which is what percent-encoding sees.
  type ByteJson = JsonOf<Bytes>

  datatype ArgType = TString | TBool | TInt | TStrings | TAny
  datatype ArgSpec = ArgSpec(ty: ArgType, required: bool, inPath: bool)

  // One segment of a path template: fixed text, or the place of an argument.
  datatype Segment = Lit(text: string) | Hole(name: string)

  datatype Method = GET | POST | PUT | DELETE

  // One row of the command table; args in key order.
  datatype Spec = Spec(verb: Method, path: seq<Segment>, needsToken: bool, args: seq<(string, ArgSpec)>)

  datatype Fault =
    | UnknownCommand
    | NotObject
    | UnknownArgument(key: string)
    | MissingArgument(key: string)
    | WrongType(key: string)
    | BadPathSegment(key: string)

  datatype Request = Request(verb: Method, path: string, body: Option<map<string, ByteJson>>, needsToken: bool)

  predicate TypeOk(t: ArgType, v: ByteJson) {
    match t
    case TString => v.Str?
    case TBool => v.Bool?
    case TInt => v.Int?
    case TStrings => v.Arr? && forall x | x in v.items :: x.Str?
    case TAny => true
  }

  const DOT: Bytes := [46]
  const DOTDOT: Bytes := [46, 46]

  predicate BadSegment(v: ByteJson) {
    v.Str? && (v.s == [] || v.s == DOT || v.s == DOTDOT)
  }

  // -- The table's own shape -------------------------------------------------------

  predicate Declares(s: Spec, key: string) {
    exists i | 0 <= i < |s.args| :: s.args[i].0 == key
  }

  predicate IsPathArg(s: Spec, key: string) {
    exists i | 0 <= i < |s.args| :: s.args[i] == (key, ArgSpec(TString, true, true))
  }

  predicate FixedText(t: string) {
    t != "" && t != "." && t != ".." && '/' !in t && '?' !in t && '#' !in t
  }

  // What the table promises of each row: keys in order; the path arguments are
  // exactly the holes of the path, required strings; and a GET carries no body.
  predicate WellFormed(s: Spec) {
    && (forall i, j | 0 <= i < j < |s.args| :: Less(s.args[i].0, s.args[j].0))
    && (forall i | 0 <= i < |s.path| ::
          if s.path[i].Lit? then FixedText(s.path[i].text) else IsPathArg(s, s.path[i].name))
    && (forall i | 0 <= i < |s.args| && s.args[i].1.inPath ::
          s.args[i].1 == ArgSpec(TString, true, true) && Hole(s.args[i].0) in s.path)
    && (s.verb == GET ==> forall i | 0 <= i < |s.args| :: s.args[i].1.inPath)
  }

  // -- What is wrong with the arguments ---------------------------------------------

  type Args = map<string, ByteJson>

  predicate Given(args: Args, key: string) { key in args && args[key] != Null }

  // The fault of one declared argument.
  function ArgFault(key: string, a: ArgSpec, args: Args): (f: Option<Fault>) {
    if !Given(args, key) then (if a.required then Some(MissingArgument(key)) else None)
    else if !TypeOk(a.ty, args[key]) then Some(WrongType(key))
    else if a.inPath && BadSegment(args[key]) then Some(BadPathSegment(key))
    else None
  }

  predicate Unknown(s: Spec, args: Args, key: string) { key in args && !Declares(s, key) }

  // Nothing is wrong: every argument given is declared, every declared one is
  // present if required, of its type, and a real path segment if it goes there.
  ghost predicate Acceptable(s: Spec, args: Args) {
    && (forall k | k in args :: Declares(s, k))
    && (forall i | 0 <= i < |s.args| :: ArgFault(s.args[i].0, s.args[i].1, args).None?)
  }

  // A value of the type an argument is declared with; any value for TAny.
  ghost predicate HasType(t: ArgType, v: ByteJson) {
    && (t == TString ==> exists s :: v == Str(s))
    && (t == TBool ==> v == Bool(true) || v == Bool(false))
    && (t == TInt ==> exists i :: v == Int(i))
    && (t == TStrings ==> v.Arr? && forall j | 0 <= j < |v.items| :: exists s :: v.items[j] == Str(s))
  }

  lemma TypeExactly(t: ArgType, v: ByteJson)
    ensures TypeOk(t, v) <==> HasType(t, v)
  {
    match v {
      case Str(s) => assert v == Str(s);
      case Bool(b) => assert v == Bool(true) || v == Bool(false);
      case Int(i) => assert v == Int(i);
      case Arr(items) =>
        if t == TStrings {
          if TypeOk(t, v) {
            forall j | 0 <= j < |items| ensures exists s :: items[j] == Str(s) {
              assert items[j] in items;
              assert items[j] == Str(items[j].s);
            }
          }
          if HasType(t, v) {
            forall x | x in items ensures x.Str? {
              var j :| 0 <= j < |items| && items[j] == x;
              var s :| items[j] == Str(s);
            }
          }
        }
      case _ =>
    }
  }

  // What is wrong with a declared argument: missing when it is required and absent or
  // null, of the wrong type, or put in the path as nothing, "." or "..".
  lemma ArgFaultExactly(key: string, a: ArgSpec, args: Args)
    ensures var f := ArgFault(key, a, args);
            var given := key in args && args[key] != Null;
            && (f == Some(MissingArgument(key)) <==> a.required && !given)
            && (f == Some(WrongType(key)) <==> given && !HasType(a.ty, args[key]))
            && (f == Some(BadPathSegment(key)) <==>
                  given && HasType(a.ty, args[key]) && a.inPath
                  && (args[key] == Str([]) || args[key] == Str([46]) || args[key] == Str([46, 46])))
            && (f.Some? ==> f.value in {MissingArgument(key), WrongType(key), BadPathSegment(key)})
  {
    if key in args { TypeExactly(a.ty, args[key]); }
  }

  // A key is unknown exactly when no argument of the command has that name.
  lemma UnknownExactly(s: Spec, args: Args, key: string)
    ensures Unknown(s, args, key) <==> key in args && key !in set i | 0 <= i < |s.args| :: s.args[i].0
  {
  }

  // f is the first fault: the least unknown key, or with none, the fault of the
  // least faulty declared key.
  ghost predicate FirstFault(s: Spec, args: Args, f: Fault) {
    || (f.UnknownArgument? && Unknown(s, args, f.key)
        && forall k | Unknown(s, args, k) :: k == f.key || Less(f.key, k))
    || ((forall k | k in args :: Declares(s, k))
        && exists i | 0 <= i < |s.args| ::
             && ArgFault(s.args[i].0, s.args[i].1, args) == Some(f)
             && forall j | 0 <= j < i :: ArgFault(s.args[j].0, s.args[j].1, args).None?)
  }

  // There is one first fault, so every implementation of the table reports the same.
  lemma FirstFaultIsOne(s: Spec, args: Args, f: Fault, g: Fault)
    requires FirstFault(s, args, f) && FirstFault(s, args, g)
    ensures f == g
  {
    if f.UnknownArgument? && Unknown(s, args, f.key) {
      LessTotal(f.key, g.key);
    } else {
      var i :| 0 <= i < |s.args| && ArgFault(s.args[i].0, s.args[i].1, args) == Some(f)
               && forall j | 0 <= j < i :: ArgFault(s.args[j].0, s.args[j].1, args).None?;
      var k :| 0 <= k < |s.args| && ArgFault(s.args[k].0, s.args[k].1, args) == Some(g)
               && forall j | 0 <= j < k :: ArgFault(s.args[j].0, s.args[j].1, args).None?;
      assert !(i < k) && !(k < i);
    }
  }

  // -- The request ---------------------------------------------------------------------

  function SegmentText(g: Segment, args: Args): (t: string) {
    match g
    case Lit(text) => text
    case Hole(name) => if name in args && args[name].Str? then Quote(args[name].s) else ""
  }

  function SegmentTexts(path: seq<Segment>, args: Args): (r: seq<string>)
    ensures |r| == |path|
    ensures forall i | 0 <= i < |path| :: r[i] == SegmentText(path[i], args)
  {
    if |path| == 0 then [] else [SegmentText(path[0], args)] + SegmentTexts(path[1..], args)
  }

  // "/" before every segment.
  function PathText(path: seq<Segment>, args: Args): (t: string) {
    Join([""] + SegmentTexts(path, args), '/')
  }

  predicate IsBodyArg(s: Spec, key: string) {
    exists i | 0 <= i < |s.args| :: s.args[i].0 == key && !s.args[i].1.inPath
  }

  function BodyOf(s: Spec, args: Args): (b: map<string, ByteJson>) {
    map k | k in args && args[k] != Null && IsBodyArg(s, k) :: args[k]
  }

  function RequestOf(s: Spec, args: Args): (r: Request) {
    Request(s.verb, PathText(s.path, args), if s.verb == GET then None else Some(BodyOf(s, args)), s.needsToken)
  }

  // What the first n declared arguments put in the body.
  ghost function BodySoFar(args: seq<(string, ArgSpec)>, given: Args, n: nat): (b: map<string, ByteJson>)
    requires n <= |args|
  {
    if n == 0 then map[]
    else
      var b := BodySoFar(args, given, n - 1);
      var (key, a) := args[n - 1];
      if Given(given, key) && !a.inPath then b[key := given[key]] else b
  }

  lemma {:induction false} BodySoFarHolds(args: seq<(string, ArgSpec)>, given: Args, n: nat, k: string)
    requires n <= |args|
    ensures k in BodySoFar(args, given, n) <==>
              Given(given, k) && exists i | 0 <= i < n :: args[i].0 == k && !args[i].1.inPath
    ensures k in BodySoFar(args, given, n) ==> BodySoFar(args, given, n)[k] == given[k]
  {
    if n > 0 { BodySoFarHolds(args, given, n - 1, k); }
  }

  lemma BodySoFarIsBody(s: Spec, given: Args)
    ensures BodySoFar(s.args, given, |s.args|) == BodyOf(s, given)
  {
    forall k
      ensures k in BodySoFar(s.args, given, |s.args|) <==> k in BodyOf(s, given)
      ensures k in BodySoFar(s.args, given, |s.args|) ==> BodySoFar(s.args, given, |s.args|)[k] == given[k]
    {
      BodySoFarHolds(s.args, given, |s.args|, k);
    }
  }

  // What the first n declared arguments put in the path.
  ghost function PathSoFar(args: seq<(string, ArgSpec)>, given: Args, n: nat): (p: map<string, string>)
    requires n <= |args|
  {
    if n == 0 then map[]
    else
      var p := PathSoFar(args, given, n - 1);
      var (key, a) := args[n - 1];
      if Given(given, key) && a.inPath && given[key].Str? then p[key := Quote(given[key].s)] else p
  }

  ghost predicate Encoded(given: Args, pathValues: map<string, string>, key: string) {
    && key in given && given[key].Str? && key in pathValues && pathValues[key] == Quote(given[key].s)
  }

  lemma {:induction false} PathSoFarHolds(args: seq<(string, ArgSpec)>, given: Args, n: nat, i: nat)
    requires i < n <= |args|
    requires args[i].1.inPath && Given(given, args[i].0) && given[args[i].0].Str?
    ensures Encoded(given, PathSoFar(args, given, n), args[i].0)
  {
    if i < n - 1 { PathSoFarHolds(args, given, n - 1, i); }
  }

  // The declared arguments in key order: the first fault, or the body and the
  // encoded path values.
  method ReadArgs(args: seq<(string, ArgSpec)>, given: Args)
    returns (fault: Option<Fault>, body: map<string, ByteJson>, pathValues: map<string, string>)
    ensures fault.Some? ==> exists i | 0 <= i < |args| ::
              && ArgFault(args[i].0, args[i].1, given) == fault
              && forall j | 0 <= j < i :: ArgFault(args[j].0, args[j].1, given).None?
    ensures fault.None? ==> forall i | 0 <= i < |args| :: ArgFault(args[i].0, args[i].1, given).None?
    ensures fault.None? ==> body == BodySoFar(args, given, |args|) && pathValues == PathSoFar(args, given, |args|)
  {
    body, pathValues := map[], map[];
    for i := 0 to |args|
      invariant forall j | 0 <= j < i :: ArgFault(args[j].0, args[j].1, given).None?
      invariant body == BodySoFar(args, given, i) && pathValues == PathSoFar(args, given, i)
    {
      var (key, a) := args[i];
      if key !in given || given[key] == Null {
        if a.required { return Some(MissingArgument(key)), body, pathValues; }
      } else {
        var v := given[key];
        if !TypeOk(a.ty, v) { return Some(WrongType(key)), body, pathValues; }
        if a.inPath {
          if BadSegment(v) { return Some(BadPathSegment(key)), body, pathValues; }
          if v.Str? { pathValues := pathValues[key := Quote(v.s)]; }
        } else {
          body := body[key := v];
        }
      }
    }
    fault := None;
  }

  lemma HolesEncoded(s: Spec, given: Args, j: nat)
    requires WellFormed(s) && Acceptable(s, given) && j < |s.path| && s.path[j].Hole?
    ensures Encoded(given, PathSoFar(s.args, given, |s.args|), s.path[j].name)
  {
    var n := s.path[j].name;
    assert IsPathArg(s, n);
    var i :| 0 <= i < |s.args| && s.args[i] == (n, ArgSpec(TString, true, true));
    assert ArgFault(s.args[i].0, s.args[i].1, given).None?;
    PathSoFarHolds(s.args, given, |s.args|, i);
  }

  // The template with its holes filled.
  method FillPath(path: seq<Segment>, ghost given: Args, pathValues: map<string, string>) returns (text: string)
    requires forall j | 0 <= j < |path| && path[j].Hole? :: Encoded(given, pathValues, path[j].name)
    ensures text == PathText(path, given)
  {
    var parts: seq<string> := [];
    for i := 0 to |path|
      invariant |parts| == i
      invariant forall j | 0 <= j < i :: parts[j] == SegmentText(path[j], given)
    {
      var g := path[i];
      parts := parts + [if g.Lit? then g.text else pathValues[g.name]];
    }
    assert parts == SegmentTexts(path, given);
    text := Join([""] + parts, '/');
  }

  // The first argument the command does not have, in key order.
  method FirstUnknown(s: Spec, given: Args) returns (k: Option<string>)
    ensures k.None? <==> forall x | x in given :: Declares(s, x)
    ensures k.Some? ==>
              && Unknown(s, given, k.value)
              && forall x | Unknown(s, given, x) :: x == k.value || Less(k.value, x)
  {
    var unknown := set x | x in given && !Declares(s, x);
    if unknown == {} {
      forall x | x in given ensures Declares(s, x) { assert x !in unknown; }
      return None;
    }
    var least := LeastKey(unknown);
    forall x | Unknown(s, given, x) ensures x == least || Less(least, x) { assert x in unknown; }
    k := Some(least);
  }

  // The request of a command: its verb, its token, and a body that holds exactly the
  // arguments given that do not stand in the path, each as it was given; a GET has none.
  ghost predicate IsRequest(s: Spec, given: Args, r: Request) {
    && r.verb == s.verb && r.needsToken == s.needsToken
    && (r.body.None? <==> s.verb == GET)
    && (r.body.Some? ==>
          forall k ::
            && (k in r.body.value <==> && k in given && given[k] != Null
                                       && exists i | 0 <= i < |s.args| :: s.args[i].0 == k && !s.args[i].1.inPath)
            && (k in r.body.value ==> r.body.value[k] == given[k]))
  }

  lemma RequestIsRequest(s: Spec, given: Args)
    ensures IsRequest(s, given, RequestOf(s, given))
  {
  }

  // Whether a call is the request its command makes of these arguments, or the
  // first thing wrong with them.
  ghost predicate Answers(s: Spec, given: Args, res: Result<Request, Fault>) {
    && (res.Ok? <==> Acceptable(s, given))
    && (res.Ok? ==> res.value == RequestOf(s, given) && IsRequest(s, given, res.value))
    && (res.Err? ==> FirstFault(s, given, res.error))
  }

  method BuildRequest(s: Spec, given: Args) returns (res: Result<Request, Fault>)
    requires WellFormed(s)
    ensures Answers(s, given, res)
  {
    var unknown := FirstUnknown(s, given);
    if unknown.Some? { return Err(UnknownArgument(unknown.value)); }
    var fault, body, pathValues := ReadArgs(s.args, given);
    if fault.Some? { return Err(fault.value); }
    assert Acceptable(s, given);
    BodySoFarIsBody(s, given);
    forall j: nat | j < |s.path| && s.path[j].Hole? ensures Encoded(given, pathValues, s.path[j].name) {
      HolesEncoded(s, given, j);
    }
    var path := FillPath(s.path, given, pathValues);
    RequestIsRequest(s, given);
    res := Ok(Request(s.verb, path, if s.verb == GET then None else Some(body), s.needsToken));
  }

  // -- What a request carries -----------------------------------------------------------

  lemma QuotedSegment(bs: Bytes)
    requires !BadSegment(Str(bs))
    ensures FixedText(Quote(bs))
  {
    QuoteIsSafe(bs);
    QuoteEmpty(bs);
    if Quote(bs) == "." { QuoteInjective(bs, DOT); }
    if Quote(bs) == ".." { QuoteInjective(bs, DOTDOT); }
  }

  // Every segment of an accepted request's path is ordinary text: no argument can
  // add a segment, a query, a fragment, or a dot-segment.
  lemma SegmentsAreFixed(s: Spec, args: Args, i: nat)
    requires WellFormed(s) && Acceptable(s, args) && i < |s.path|
    ensures FixedText(SegmentTexts(s.path, args)[i])
    ensures s.path[i].Hole? ==>
              Given(args, s.path[i].name) && args[s.path[i].name].Str?
              && SegmentTexts(s.path, args)[i] == Quote(args[s.path[i].name].s)
  {
    if s.path[i].Hole? {
      var n := s.path[i].name;
      assert IsPathArg(s, n);
      var j :| 0 <= j < |s.args| && s.args[j] == (n, ArgSpec(TString, true, true));
      assert ArgFault(s.args[j].0, s.args[j].1, args).None?;
      QuotedSegment(args[n].s);
    }
  }

  // Cutting the path of an accepted request at its slashes gives back one segment
  // for each of the template's, none of them empty or a dot-segment, and decoding
  // the one in an argument's place gives back that argument.
  lemma PathRecovers(s: Spec, args: Args)
    requires WellFormed(s) && Acceptable(s, args)
    ensures var cut := Split(RequestOf(s, args).path, '/');
            && |cut| == |s.path| + 1 && cut[0] == ""
            && PathCarries(s, args, cut[1..])
  {
    var parts := [""] + SegmentTexts(s.path, args);
    forall i | 0 <= i < |parts| ensures '/' !in parts[i] {
      if i > 0 { SegmentsAreFixed(s, args, i - 1); }
    }
    SplitJoin(parts, '/');
    var segs := parts[1..];
    assert segs == SegmentTexts(s.path, args);
    forall i | 0 <= i < |s.path| ensures SegmentCarries(s.path[i], args, segs[i]) {
      SegmentsAreFixed(s, args, i);
      if s.path[i].Hole? { UnquoteQuote(args[s.path[i].name].s); }
    }
  }

  ghost predicate SegmentCarries(g: Segment, args: Args, text: string) {
    && FixedText(text)
    && match g
       case Lit(t) => text == t
       case Hole(n) => n in args && args[n].Str? && Unquote(text) == Some(args[n].s)
  }

  ghost predicate PathCarries(s: Spec, args: Args, segs: seq<string>) {
    |segs| == |s.path| && forall i | 0 <= i < |s.path| :: SegmentCarries(s.path[i], args, segs[i])
  }

  lemma {:induction false} JoinLacks(parts: seq<string>, sep: char, c: char)
    requires |parts| >= 1 && c != sep && forall i | 0 <= i < |parts| :: c !in parts[i]
    ensures c !in Join(parts, sep)
  {
    if |parts| > 1 { JoinLacks(parts[1..], sep, c); }
  }

  predicate NoQuery(t: string) { '?' !in t && '#' !in t }

  lemma SegmentHasNoQuery(s: Spec, args: Args, i: nat)
    requires WellFormed(s) && Acceptable(s, args) && i < |s.path|
    ensures NoQuery(SegmentTexts(s.path, args)[i])
  {
    SegmentsAreFixed(s, args, i);
  }

  // It has no query and no fragment.
  lemma PathHasNoQuery(s: Spec, args: Args)
    requires WellFormed(s) && Acceptable(s, args)
    ensures '?' !in RequestOf(s, args).path && '#' !in RequestOf(s, args).path
  {
    var parts := [""] + SegmentTexts(s.path, args);
    forall i | 0 <= i < |parts| ensures NoQuery(parts[i]) {
      if i > 0 { SegmentHasNoQuery(s, args, i - 1); }
    }
    JoinLacks(parts, '/', '?');
    JoinLacks(parts, '/', '#');
  }

  // Two calls of one command make the same request only when they give the same
  // arguments, null counting as not given.
  lemma RequestInjective(s: Spec, a: Args, b: Args, key: string)
    requires WellFormed(s) && Acceptable(s, a) && Acceptable(s, b)
    requires RequestOf(s, a) == RequestOf(s, b)
    ensures Given(a, key) <==> Given(b, key)
    ensures Given(a, key) ==> a[key] == b[key]
  {
    PathRecovers(s, a);
    PathRecovers(s, b);
    if Declares(s, key) {
      var i :| 0 <= i < |s.args| && s.args[i].0 == key;
      if s.args[i].1.inPath {
        assert Hole(key) in s.path;
        var j :| 0 <= j < |s.path| && s.path[j] == Hole(key);
        assert s.path[j].name == key;
        var segs := Split(RequestOf(s, a).path, '/')[1..];
        assert SegmentCarries(s.path[j], a, segs[j]) && SegmentCarries(s.path[j], b, segs[j]);
      } else {
        assert s.verb != GET;
        assert BodyOf(s, a) == BodyOf(s, b);
        assert IsBodyArg(s, key);
        assert Given(a, key) <==> key in BodyOf(s, a);
        assert Given(b, key) <==> key in BodyOf(s, b);
      }
    }
  }
}
