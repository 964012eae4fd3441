// Resolving the stylesheet's custom properties into plain values
// (scripts/gen_tokens.py).
//
// A value is the list of pieces its text splits into at the var() references of
// CSS Custom Properties for Cascading Variables Module Level 1, section 3.
module DesignTokens {
  import opened Prelude
  import opened Text

  datatype Piece = Plain(text: string) | Ref(name: string, fallback: Option<string>)
  type Value = seq<Piece>
  type Raw = map<string, Value>

  datatype TokenError = Circular(name: string) | Undefined(name: string)

  // resolve(value, seen): every reference replaced, left to right, following
  // definitions with the names on the way down in seen.
  function Resolve(raw: Raw, value: Value, seen: set<string>): (r: Result<string, TokenError>)
    decreases raw.Keys - seen, |value|
  {
    if |value| == 0 then Ok("")
    else
      match ResolveOne(raw, value[0], seen)
      case Err(e) => Err(e)
      case Ok(s) =>
        match Resolve(raw, value[1..], seen)
        case Err(e) => Err(e)
        case Ok(t) => Ok(s + t)
  }

  function ResolveOne(raw: Raw, piece: Piece, seen: set<string>): (r: Result<string, TokenError>)
    decreases raw.Keys - seen, 0
  {
    match piece
    case Plain(s) => Ok(s)
    case Ref(name, fallback) =>
      if name in seen then Err(Circular(name))
      else if name in raw then
        assert raw.Keys - (seen + {name}) < raw.Keys - seen by {
          assert name in raw.Keys - seen && name !in raw.Keys - (seen + {name});
        }
        Resolve(raw, raw[name], seen + {name})
      else if fallback.Some? then Ok(Strip(fallback.value))
      else Err(Undefined(name))
  }

  // -- The graph of references ------------------------------------------------

  ghost predicate Refers(value: Value, name: string) {
    exists i | 0 <= i < |value| :: value[i].Ref? && value[i].name == name
  }

  // A walk along references between defined names.
  ghost predicate IsPath(raw: Raw, p: seq<string>) {
    && |p| >= 1
    && (forall i | 0 <= i < |p| :: p[i] in raw)
    && (forall i | 0 <= i < |p| - 1 :: Refers(raw[p[i]], p[i + 1]))
  }

  ghost predicate IsCycle(raw: Raw, p: seq<string>) {
    IsPath(raw, p) && |p| >= 2 && p[0] == p[|p| - 1]
  }

  ghost predicate Acyclic(raw: Raw) {
    forall p :: !IsCycle(raw, p)
  }

  ghost predicate NeedsDefinition(raw: Raw, piece: Piece) {
    piece.Ref? && piece.name !in raw && piece.fallback.None?
  }

  // No reference to an undefined name is without a fallback.
  ghost predicate NothingMissing(raw: Raw) {
    forall n, i | n in raw && 0 <= i < |raw[n]| :: !NeedsDefinition(raw, raw[n][i])
  }

  ghost predicate AllResolve(raw: Raw) {
    forall n | n in raw :: Resolve(raw, raw[n], {n}).Ok?
  }

  // -- When resolution succeeds ------------------------------------------------

  ghost predicate OnPath(p: seq<string>, seen: set<string>) {
    forall n :: n in seen <==> n in p
  }

  // Following references down a path whose names are in seen, an error is what it
  // says it is: a cycle through the named token, or a reference to the named
  // token that has neither definition nor fallback.
  lemma {:induction false} ErrorsAreTrue(raw: Raw, p: seq<string>, k: nat, seen: set<string>)
    requires IsPath(raw, p) && OnPath(p, seen) && k <= |raw[p[|p| - 1]]|
    requires Resolve(raw, raw[p[|p| - 1]][k..], seen).Err?
    ensures ErrorHolds(raw, Resolve(raw, raw[p[|p| - 1]][k..], seen).error)
    decreases raw.Keys - seen, |raw[p[|p| - 1]]| - k
  {
    var n := p[|p| - 1];
    var value := raw[n];
    if k < |value| {
      assert value[k..][0] == value[k] && value[k..][1..] == value[k + 1..];
      if ResolveOne(raw, value[k], seen).Err? {
        var name := value[k].name;
        if name in seen {
          var i :| 0 <= i < |p| && p[i] == name;
          CycleClosed(raw, p, i, k);
        } else if name in raw {
          assert raw.Keys - (seen + {name}) < raw.Keys - seen by {
            assert name in raw.Keys - seen && name !in raw.Keys - (seen + {name});
          }
          assert raw[name][0..] == raw[name];
          ErrorsAreTrue(raw, p + [name], 0, seen + {name});
        } else {
          assert NeedsDefinition(raw, raw[n][k]);
        }
      } else {
        ErrorsAreTrue(raw, p, k + 1, seen);
      }
    }
  }

  ghost predicate ErrorHolds(raw: Raw, e: TokenError) {
    match e
    case Circular(name) => exists c :: IsCycle(raw, c) && c[0] == name
    case Undefined(name) =>
      exists n, i | n in raw && 0 <= i < |raw[n]| :: NeedsDefinition(raw, raw[n][i]) && raw[n][i].name == name
  }

  lemma CycleClosed(raw: Raw, p: seq<string>, i: nat, k: nat)
    requires IsPath(raw, p) && i < |p| && k < |raw[p[|p| - 1]]|
    requires raw[p[|p| - 1]][k].Ref? && raw[p[|p| - 1]][k].name == p[i]
    ensures exists c :: IsCycle(raw, c) && c[0] == p[i]
  {
    var c := (p + [p[i]])[i..];
    assert IsPath(raw, p + [p[i]]);
    forall j | 0 <= j < |c| - 1 ensures Refers(raw[c[j]], c[j + 1]) {
      assert Refers(raw[(p + [p[i]])[i + j]], (p + [p[i]])[i + j + 1]);
    }
    assert IsCycle(raw, c);
  }

  // A failing piece fails the value.
  lemma {:induction false} PieceFails(raw: Raw, value: Value, i: nat, seen: set<string>)
    requires i < |value| && ResolveOne(raw, value[i], seen).Err?
    ensures Resolve(raw, value, seen).Err?
  {
    if i > 0 { PieceFails(raw, value[1..], i - 1, seen); }
  }

  // A path from n back into seen makes n's value fail.
  lemma {:induction false} PathIntoSeenFails(raw: Raw, p: seq<string>, seen: set<string>)
    requires IsPath(raw, p) && |p| >= 2 && p[|p| - 1] in seen
    ensures Resolve(raw, raw[p[0]], seen).Err?
    decreases |p|
  {
    assert Refers(raw[p[0]], p[1]);
    var i :| 0 <= i < |raw[p[0]]| && raw[p[0]][i].Ref? && raw[p[0]][i].name == p[1];
    if p[1] !in seen {
      var q := p[1..];
      forall j | 0 <= j < |q| - 1 ensures Refers(raw[q[j]], q[j + 1]) {
        var i := j + 1;
        assert Refers(raw[p[i]], p[i + 1]);
      }
      PathIntoSeenFails(raw, q, seen + {p[1]});
    }
    PieceFails(raw, raw[p[0]], i, seen);
  }

  // Every token resolves exactly when the references among defined names have no
  // cycle and every reference to an undefined name has a fallback.
  lemma ResolvesExactly(raw: Raw)
    ensures AllResolve(raw) <==> Acyclic(raw) && NothingMissing(raw)
  {
    if AllResolve(raw) {
      forall p ensures !IsCycle(raw, p) {
        if IsCycle(raw, p) {
          PathIntoSeenFails(raw, p, {p[0]});
        }
      }
      forall n, i | n in raw && 0 <= i < |raw[n]| ensures !NeedsDefinition(raw, raw[n][i]) {
        if NeedsDefinition(raw, raw[n][i]) {
          PieceFails(raw, raw[n], i, {n});
        }
      }
    }
    if Acyclic(raw) && NothingMissing(raw) {
      forall n | n in raw ensures Resolve(raw, raw[n], {n}).Ok? {
        if Resolve(raw, raw[n], {n}).Err? {
          assert raw[n][0..] == raw[n];
          ErrorsAreTrue(raw, [n], 0, {n});
        }
      }
    }
  }

  // -- What a resolved token is -------------------------------------------------

  // One round of substitution, from a table of already plain values.
  function Substitute(value: Value, out: map<string, string>): (s: string) {
    if |value| == 0 then "" else SubstituteOne(value[0], out) + Substitute(value[1..], out)
  }

  function SubstituteOne(piece: Piece, out: map<string, string>): (s: string) {
    match piece
    case Plain(s) => s
    case Ref(name, fallback) =>
      if name in out then out[name] else if fallback.Some? then Strip(fallback.value) else ""
  }

  // out gives every token its own definition with the references replaced.
  ghost predicate Solves(raw: Raw, out: map<string, string>) {
    out.Keys == raw.Keys && forall n | n in raw :: out[n] == Substitute(raw[n], out)
  }

  // The names already on the way down do not change what a value resolves to.
  lemma {:induction false} SeenDoesNotMatter(raw: Raw, value: Value, seen: set<string>, fewer: set<string>)
    requires fewer <= seen && Resolve(raw, value, seen).Ok?
    ensures Resolve(raw, value, fewer) == Resolve(raw, value, seen)
    decreases raw.Keys - seen, |value|
  {
    if |value| > 0 {
      SeenDoesNotMatter(raw, value[1..], seen, fewer);
      if value[0].Ref? && value[0].name in raw {
        var name := value[0].name;
        assert raw.Keys - (seen + {name}) < raw.Keys - seen by {
          assert name in raw.Keys - seen && name !in raw.Keys - (seen + {name});
        }
        SeenDoesNotMatter(raw, raw[name], seen + {name}, fewer + {name});
      }
    }
  }

  // Any solution of the equations agrees with whatever resolves.
  lemma {:induction false} SolutionAgrees(raw: Raw, value: Value, seen: set<string>, out: map<string, string>)
    requires Solves(raw, out) && Resolve(raw, value, seen).Ok?
    ensures Substitute(value, out) == Resolve(raw, value, seen).value
    decreases raw.Keys - seen, |value|
  {
    if |value| > 0 {
      SolutionAgrees(raw, value[1..], seen, out);
      if value[0].Ref? && value[0].name in raw {
        var name := value[0].name;
        assert raw.Keys - (seen + {name}) < raw.Keys - seen by {
          assert name in raw.Keys - seen && name !in raw.Keys - (seen + {name});
        }
        SolutionAgrees(raw, raw[name], seen + {name}, out);
      }
    }
  }

  ghost function Resolved(raw: Raw): (out: map<string, string>)
    requires AllResolve(raw)
  {
    map n | n in raw :: Resolve(raw, raw[n], {n}).value
  }

  lemma {:induction false} ResolvedSubstitutes(raw: Raw, value: Value, seen: set<string>)
    requires AllResolve(raw) && Resolve(raw, value, seen).Ok?
    ensures Substitute(value, Resolved(raw)) == Resolve(raw, value, seen).value
    decreases |value|
  {
    if |value| > 0 {
      ResolvedSubstitutes(raw, value[1..], seen);
      if value[0].Ref? && value[0].name in raw {
        var name := value[0].name;
        SeenDoesNotMatter(raw, raw[name], seen + {name}, {name});
      }
    }
  }

  // When every token resolves, the result is the one and only map in which each
  // token is its own definition with every reference replaced by the token it
  // names.
  lemma ResolvedIsTheSolution(raw: Raw, out: map<string, string>)
    requires AllResolve(raw)
    ensures Solves(raw, out) <==> out == Resolved(raw)
  {
    var r := Resolved(raw);
    forall n | n in raw ensures r[n] == Substitute(raw[n], r) {
      ResolvedSubstitutes(raw, raw[n], {n});
    }
    if Solves(raw, out) {
      forall n | n in raw ensures out[n] == r[n] {
        SolutionAgrees(raw, raw[n], {n}, out);
      }
    }
  }

  // -- tokens() -------------------------------------------------------------------

  type Block = seq<(string, Value)>

  // The last declaration of each name wins, wherever it is.
  function Declared(blocks: seq<Block>): (raw: Raw) {
    if |blocks| == 0 then map[] else DeclaredIn(Declared(blocks[..|blocks| - 1]), blocks[|blocks| - 1])
  }

  function DeclaredIn(raw: Raw, block: Block): (r: Raw) {
    if |block| == 0 then raw
    else DeclaredIn(raw, block[..|block| - 1])[block[|block| - 1].0 := block[|block| - 1].1]
  }

  predicate DeclaresAt(blocks: seq<Block>, b: nat, d: nat, name: string) {
    b < |blocks| && d < |blocks[b]| && blocks[b][d].0 == name
  }

  // No declaration of that name comes later.
  ghost predicate LastOf(blocks: seq<Block>, b: nat, d: nat, name: string) {
    && DeclaresAt(blocks, b, d, name)
    && forall b': nat, d': nat | DeclaresAt(blocks, b', d', name) :: b' < b || (b' == b && d' <= d)
  }

  lemma {:induction false} DeclaredInExactly(raw: Raw, block: Block, name: string, d: nat)
    requires d < |block| && block[d].0 == name && forall e | d < e < |block| :: block[e].0 != name
    ensures name in DeclaredIn(raw, block) && DeclaredIn(raw, block)[name] == block[d].1
  {
    if d < |block| - 1 { DeclaredInExactly(raw, block[..|block| - 1], name, d); }
  }

  lemma {:induction false} DeclaredInKeeps(raw: Raw, block: Block, name: string)
    requires forall d | 0 <= d < |block| :: block[d].0 != name
    ensures name in DeclaredIn(raw, block) <==> name in raw
    ensures name in raw ==> DeclaredIn(raw, block)[name] == raw[name]
  {
    if |block| > 0 { DeclaredInKeeps(raw, block[..|block| - 1], name); }
  }

  // What is read from the stylesheet: every name declared in some block, with the value
  // of its last declaration.
  lemma {:induction false} DeclaredExactly(blocks: seq<Block>, name: string)
    ensures name in Declared(blocks) <==> exists b: nat, d: nat :: DeclaresAt(blocks, b, d, name)
    ensures forall b: nat, d: nat | LastOf(blocks, b, d, name) :: Declared(blocks)[name] == blocks[b][d].1
  {
    if |blocks| > 0 {
      var front, n := blocks[..|blocks| - 1], |blocks| - 1;
      DeclaredExactly(front, name);
      if Names(blocks[n], name) {
        var d := LastIn(blocks[n], name);
        DeclaredInExactly(Declared(front), blocks[n], name, d);
        assert DeclaresAt(blocks, n, d, name);
        forall b: nat, e: nat | LastOf(blocks, b, e, name) ensures b == n && e == d {
          assert DeclaresAt(blocks, b, e, name);
        }
      } else {
        DeclaredInKeeps(Declared(front), blocks[n], name);
        FrontDeclares(blocks, name);
        if b: nat, d: nat :| DeclaresAt(blocks, b, d, name) { assert DeclaresAt(front, b, d, name); }
        if b: nat, d: nat :| DeclaresAt(front, b, d, name) { assert DeclaresAt(blocks, b, d, name); }
        forall b: nat, d: nat | LastOf(blocks, b, d, name) ensures Declared(blocks)[name] == blocks[b][d].1 {
          assert DeclaresAt(front, b, d, name) && front[b] == blocks[b];
        }
      }
    }
  }

  predicate Names(block: Block, name: string) { exists d | 0 <= d < |block| :: block[d].0 == name }

  lemma {:induction false} LastIn(block: Block, name: string) returns (d: nat)
    requires Names(block, name)
    ensures d < |block| && block[d].0 == name && forall e | d < e < |block| :: block[e].0 != name
  {
    if block[|block| - 1].0 == name {
      d := |block| - 1;
    } else {
      var e :| 0 <= e < |block| && block[e].0 == name;
      assert block[..|block| - 1][e].0 == name;
      d := LastIn(block[..|block| - 1], name);
    }
  }

  lemma FrontDeclares(blocks: seq<Block>, name: string)
    requires |blocks| > 0 && !Names(blocks[|blocks| - 1], name)
    ensures forall b: nat, d: nat ::
              DeclaresAt(blocks, b, d, name) <==> DeclaresAt(blocks[..|blocks| - 1], b, d, name)
    ensures forall b: nat, d: nat | LastOf(blocks, b, d, name) :: LastOf(blocks[..|blocks| - 1], b, d, name)
  {
    var front, n := blocks[..|blocks| - 1], |blocks| - 1;
    forall b: nat, d: nat ensures DeclaresAt(blocks, b, d, name) <==> DeclaresAt(front, b, d, name) {
      if b < n { assert blocks[b] == front[b]; }
    }
    forall b: nat, d: nat | LastOf(blocks, b, d, name) ensures LastOf(front, b, d, name) {
      assert DeclaresAt(front, b, d, name);
    }
  }

  method Tokens(blocks: seq<Block>) returns (res: Result<map<string, string>, TokenError>)
    ensures var raw := Declared(blocks);
            && (res.Ok? <==> Acyclic(raw) && NothingMissing(raw))
            && (res.Ok? ==> Solves(raw, res.value))
            && (res.Err? ==> ErrorHolds(raw, res.error))
  {
    var raw: Raw := map[];
    var order: seq<string> := [];
    for b := 0 to |blocks|
      invariant raw == Declared(blocks[..b])
      invariant forall n :: n in raw <==> n in order
    {
      assert blocks[..b + 1][..b] == blocks[..b];
      var block := blocks[b];
      for d := 0 to |block|
        invariant raw == DeclaredIn(Declared(blocks[..b]), block[..d])
        invariant forall n :: n in raw <==> n in order
      {
        assert block[..d + 1][..d] == block[..d];
        if block[d].0 !in raw { order := order + [block[d].0]; }
        raw := raw[block[d].0 := block[d].1];
      }
      assert block[..|block|] == block;
    }
    assert blocks[..|blocks|] == blocks;
    ResolvesExactly(raw);
    var out: map<string, string> := map[];
    for i := 0 to |order|
      invariant forall n :: n in out <==> n in order[..i]
      invariant forall n | n in out :: n in raw && Resolve(raw, raw[n], {n}) == Ok(out[n])
    {
      var name := order[i];
      assert name in order;
      assert order[..i + 1] == order[..i] + [name];
      var r := Resolve(raw, raw[name], {name});
      if r.Err? {
        assert raw[name][0..] == raw[name];
        ErrorsAreTrue(raw, [name], 0, {name});
        return Err(r.error);
      }
      out := out[name := r.value];
    }
    assert order[..|order|] == order;
    assert AllResolve(raw);
    ResolvedIsTheSolution(raw, out);
    res := Ok(out);
  }
}
