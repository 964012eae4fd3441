// The last pass over a finished export: the paths of everything that looks like a
// secret (audit of backend/wavr/config_export.py).
module ConfigAudit {
  import opened Prelude
  import opened Text
  import opened Digits
  import opened StringOrder
  import opened Json

  const SUSPICIOUS: seq<string> := [
    "password", "passwd", "token", "secret", "rtsp://", "api_key", "apikey", "authorization", "bearer ",
    "private_key", "-----begin"]
  const NAMING_ONLY: seq<string> := ["secrets_you_must_supply_again", "secrets_needed"]
  const CREDENTIAL_SHAPES: seq<string> := ["rtsp://", "-----begin", "bearer "]

  predicate OccursAt(s: string, w: string, i: nat) { i + |w| <= |s| && s[i..i + |w|] == w }

  predicate Contains(s: string, w: string) { exists i: nat | i <= |s| :: OccursAt(s, w, i) }

  predicate HasAny(s: string, words: seq<string>) {
    |words| > 0 && (Contains(s, words[0]) || HasAny(s, words[1..]))
  }

  predicate BadKey(k: string) { HasAny(Lower(k), SUSPICIOUS) && k !in NAMING_ONLY }
  predicate BadText(s: string) { HasAny(Lower(s), CREDENTIAL_SHAPES) }

  // -- Where a word is looked for -------------------------------------------------------

  // The word stands somewhere in the text, in any case.
  ghost predicate Within(word: string, s: string) {
    exists a, w, b :: s == a + w + b && Lower(w) == word
  }

  lemma ContainsExactly(s: string, w: string)
    ensures Contains(s, w) <==> exists a, b :: s == a + w + b
  {
    if Contains(s, w) {
      var i: nat :| i <= |s| && OccursAt(s, w, i);
      assert s == s[..i] + w + s[i + |w|..];
    }
    if a, b :| s == a + w + b {
      assert s[|a|..|a| + |w|] == w;
      assert OccursAt(s, w, |a|);
    }
  }

  lemma LowerOfParts(a: string, w: string, b: string)
    ensures Lower(a + w + b) == Lower(a) + Lower(w) + Lower(b)
  {
    LowerAt(a);
    LowerAt(w);
    LowerAt(b);
    LowerAt(a + w + b);
  }

  lemma LowerContainsExactly(s: string, word: string)
    ensures Contains(Lower(s), word) <==> Within(word, s)
  {
    ContainsExactly(Lower(s), word);
    LowerAt(s);
    if Contains(Lower(s), word) {
      var i: nat :| i <= |Lower(s)| && OccursAt(Lower(s), word, i);
      var a, w, b := s[..i], s[i..i + |word|], s[i + |word|..];
      assert s == a + w + b;
      LowerAt(w);
      assert Lower(w) == word;
    }
    if a, w, b :| s == a + w + b && Lower(w) == word { LowerOfParts(a, w, b); }
  }

  lemma {:induction false} HasAnyExactly(s: string, words: seq<string>)
    ensures HasAny(Lower(s), words) <==> exists i | 0 <= i < |words| :: Within(words[i], s)
  {
    if |words| > 0 {
      HasAnyExactly(s, words[1..]);
      LowerContainsExactly(s, words[0]);
      if i :| 0 <= i < |words| && Within(words[i], s) {
        if i > 0 { assert words[1..][i - 1] == words[i]; }
      }
      if i :| 0 <= i < |words[1..]| && Within(words[1..][i], s) { assert words[i + 1] == words[1..][i]; }
    }
  }

  // One of the three shapes of a credential stands in the text.
  ghost predicate HoldsCredential(s: string) {
    Within("rtsp://", s) || Within("-----begin", s) || Within("bearer ", s)
  }

  // The name of a secret stands in the key, which is not one of the two that only name
  // secrets.
  ghost predicate NamesSecret(k: string) {
    && k != "secrets_you_must_supply_again" && k != "secrets_needed"
    && (|| Within("password", k) || Within("passwd", k) || Within("token", k) || Within("secret", k)
        || Within("rtsp://", k) || Within("api_key", k) || Within("apikey", k) || Within("authorization", k)
        || Within("bearer ", k) || Within("private_key", k) || Within("-----begin", k))
  }

  lemma BadTextExactly(s: string)
    ensures BadText(s) <==> HoldsCredential(s)
  {
    HasAnyExactly(s, CREDENTIAL_SHAPES);
    var c := CREDENTIAL_SHAPES;
    assert c[0] == "rtsp://" && c[1] == "-----begin" && c[2] == "bearer ";
  }

  lemma BadKeyExactly(k: string)
    ensures BadKey(k) <==> NamesSecret(k)
  {
    HasAnyExactly(k, SUSPICIOUS);
    var s := SUSPICIOUS;
    assert s[0] == "password" && s[1] == "passwd" && s[2] == "token" && s[3] == "secret" && s[4] == "rtsp://";
    assert s[5] == "api_key" && s[6] == "apikey" && s[7] == "authorization" && s[8] == "bearer ";
    assert s[9] == "private_key" && s[10] == "-----begin";
  }

  // -- Positions in a document -------------------------------------------------------------

  datatype Step = Member(key: string) | Item(index: nat)

  function StepText(step: Step): (t: string) {
    match step
    case Member(k) => ['.'] + k
    case Item(i) => ['['] + DigitsOf(i) + [']']
  }

  function PathText(path: string, steps: seq<Step>): (t: string)
    decreases |steps|
  {
    if |steps| == 0 then path else PathText(path + StepText(steps[0]), steps[1..])
  }

  // Following the steps from node arrives at leaf.
  ghost predicate Reaches(node: Json, steps: seq<Step>, leaf: Json)
    decreases |steps|
  {
    if |steps| == 0 then node == leaf
    else exists child :: Child(node, steps[0], child) && Reaches(child, steps[1..], leaf)
  }

  ghost predicate Child(node: Json, step: Step, child: Json) {
    match step
    case Member(k) => node.Obj? && Field(k, child) in node.fields
    case Item(i) => node.Arr? && i < |node.items| && child == node.items[i]
  }

  // What is suspicious: a last step into a member whose key names a secret, whatever
  // it holds, or a string shaped like a credential.
  ghost predicate Marks(steps: seq<Step>, leaf: Json) {
    (|steps| > 0 && steps[|steps| - 1].Member? && BadKey(steps[|steps| - 1].key)) || (leaf.Str? && BadText(leaf.s))
  }

  ghost predicate Suspect(node: Json, steps: seq<Step>) {
    exists leaf :: Reaches(node, steps, leaf) && Marks(steps, leaf)
  }

  ghost predicate SuspectPath(node: Json, path: string, p: string) {
    exists steps :: Suspect(node, steps) && PathText(path, steps) == p
  }

  // -- The walk -------------------------------------------------------------------------------

  function Named(found: seq<string>, k: string, here: string): (f: seq<string>) {
    if BadKey(k) then found + [here] else found
  }

  function MemberPath(path: string, k: string): (p: string) { path + StepText(Member(k)) }
  function ItemPath(path: string, n: nat): (p: string) { path + StepText(Item(n)) }

  // The list after a node is walked, from the list before.
  function Found(node: Json, path: string, found: seq<string>): (f: seq<string>)
    decreases node, 1
  {
    match node
    case Obj(fields) => FoundMembers(fields, path, found, |fields|)
    case Arr(items) => FoundItems(items, path, found, |items|)
    case Str(s) => if BadText(s) then found + [path] else found
    case _ => found
  }

  // After the first n fields of an object.
  function FoundMembers(fields: seq<Property>, path: string, found: seq<string>, n: nat): (f: seq<string>)
    requires n <= |fields|
    decreases fields, 0, n
  {
    if n == 0 then found
    else
      var here := MemberPath(path, fields[n - 1].key);
      Found(fields[n - 1].value, here, Named(FoundMembers(fields, path, found, n - 1), fields[n - 1].key, here))
  }

  // After the first n items of a list.
  function FoundItems(items: seq<Json>, path: string, found: seq<string>, n: nat): (f: seq<string>)
    requires n <= |items|
    decreases items, 0, n
  {
    if n == 0 then found
    else Found(items[n - 1], ItemPath(path, n - 1), FoundItems(items, path, found, n - 1))
  }

  method Walk(node: Json, path: string, found: seq<string>) returns (out: seq<string>)
    ensures out == Found(node, path, found)
    decreases node, 1
  {
    out := found;
    match node
    case Obj(fields) => out := WalkMembers(fields, path, out);
    case Arr(items) => out := WalkItems(items, path, out);
    case Str(s) => if BadText(s) { out := out + [path]; }
    case _ =>
  }

  method WalkMembers(fields: seq<Property>, path: string, found: seq<string>) returns (out: seq<string>)
    ensures out == FoundMembers(fields, path, found, |fields|)
    decreases fields, 0
  {
    out := found;
    for n := 0 to |fields|
      invariant out == FoundMembers(fields, path, found, n)
    {
      var here := MemberPath(path, fields[n].key);
      if BadKey(fields[n].key) { out := out + [here]; }
      out := Walk(fields[n].value, here, out);
    }
  }

  method WalkItems(items: seq<Json>, path: string, found: seq<string>) returns (out: seq<string>)
    ensures out == FoundItems(items, path, found, |items|)
    decreases items, 0
  {
    out := found;
    for n := 0 to |items|
      invariant out == FoundItems(items, path, found, n)
    {
      out := Walk(items[n], ItemPath(path, n), out);
    }
  }

  // -- The walk finds exactly the suspicious positions ------------------------------------

  lemma PathTextCons(path: string, step: Step, steps: seq<Step>)
    ensures PathText(path, [step] + steps) == PathText(path + StepText(step), steps)
  {
    assert ([step] + steps)[1..] == steps;
  }

  // A path is written ".key" for a member and "[3]" for an item, from the root on.
  lemma PathSpelled(path: string, k: string, i: nat, rest: seq<Step>)
    ensures PathText(path, []) == path
    ensures PathText(path, [Member(k)] + rest) == PathText(path + "." + k, rest)
    ensures PathText(path, [Item(i)] + rest) == PathText(path + "[" + DigitsOf(i) + "]", rest)
  {
    PathTextCons(path, Member(k), rest);
    PathTextCons(path, Item(i), rest);
    assert path + (['.'] + k) == path + "." + k;
    assert path + (['['] + DigitsOf(i) + [']']) == path + "[" + DigitsOf(i) + "]";
  }

  // A position below a child is a position below its parent, one step longer.
  lemma ReachesCons(node: Json, step: Step, child: Json, steps: seq<Step>, leaf: Json)
    requires Child(node, step, child) && Reaches(child, steps, leaf)
    ensures Reaches(node, [step] + steps, leaf)
  {
    assert ([step] + steps)[1..] == steps;
  }

  // Everything below a child that is suspicious in the child is suspicious here.
  lemma SuspectBelow(node: Json, path: string, step: Step, child: Json, p: string)
    requires Child(node, step, child) && SuspectPath(child, path + StepText(step), p)
    ensures SuspectPath(node, path, p)
  {
    var steps :| Suspect(child, steps) && PathText(path + StepText(step), steps) == p;
    var leaf :| Reaches(child, steps, leaf) && Marks(steps, leaf);
    ReachesCons(node, step, child, steps, leaf);
    PathTextCons(path, step, steps);
    assert Marks([step] + steps, leaf);
    assert Suspect(node, [step] + steps);
  }

  lemma SuspectNamed(node: Json, path: string, k: string, child: Json)
    requires Child(node, Member(k), child) && BadKey(k)
    ensures SuspectPath(node, path, path + StepText(Member(k)))
  {
    assert Reaches(child, [], child);
    ReachesCons(node, Member(k), child, [], child);
    assert [Member(k)] + [] == [Member(k)];
    PathTextCons(path, Member(k), []);
    assert Marks([Member(k)], child);
    assert Suspect(node, [Member(k)]);
  }

  lemma {:induction false} FoundIsSuspect(node: Json, path: string, found: seq<string>, p: string)
    requires p in Found(node, path, found)
    ensures p in found || SuspectPath(node, path, p)
    decreases node, 1
  {
    match node
    case Obj(fields) => MembersAreSuspect(node, path, found, |fields|, p);
    case Arr(items) => ItemsAreSuspect(node, path, found, |items|, p);
    case Str(s) =>
      if p !in found {
        assert Reaches(node, [], node) && Marks([], node);
        assert Suspect(node, []);
      }
    case _ =>
  }

  lemma {:induction false} MembersAreSuspect(node: Json, path: string, found: seq<string>, n: nat, p: string)
    requires node.Obj? && n <= |node.fields| && p in FoundMembers(node.fields, path, found, n)
    ensures p in found || SuspectPath(node, path, p)
    decreases node, 0, n
  {
    if n > 0 {
      var k, v := node.fields[n - 1].key, node.fields[n - 1].value;
      var here := MemberPath(path, k);
      var before := FoundMembers(node.fields, path, found, n - 1);
      assert Child(node, Member(k), v) by { assert node.fields[n - 1] == Field(k, v); }
      FoundIsSuspect(v, here, Named(before, k, here), p);
      if p in before {
        MembersAreSuspect(node, path, found, n - 1, p);
      } else if p in Named(before, k, here) {
        SuspectNamed(node, path, k, v);
      } else {
        SuspectBelow(node, path, Member(k), v, p);
      }
    }
  }

  lemma {:induction false} ItemsAreSuspect(node: Json, path: string, found: seq<string>, n: nat, p: string)
    requires node.Arr? && n <= |node.items| && p in FoundItems(node.items, path, found, n)
    ensures p in found || SuspectPath(node, path, p)
    decreases node, 0, n
  {
    if n > 0 {
      var v := node.items[n - 1];
      var before := FoundItems(node.items, path, found, n - 1);
      assert Child(node, Item(n - 1), v);
      FoundIsSuspect(v, ItemPath(path, n - 1), before, p);
      if p in before {
        ItemsAreSuspect(node, path, found, n - 1, p);
      } else {
        SuspectBelow(node, path, Item(n - 1), v, p);
      }
    }
  }

  // Walking only ever adds.
  lemma {:induction false} FoundKeeps(node: Json, path: string, found: seq<string>, p: string)
    requires p in found
    ensures p in Found(node, path, found)
    decreases node, 1
  {
    match node
    case Obj(fields) => MembersKeep(fields, path, found, 0, |fields|, p);
    case Arr(items) => ItemsKeep(items, path, found, 0, |items|, p);
    case _ =>
  }

  lemma {:induction false} MembersKeep(fields: seq<Property>, path: string, found: seq<string>, m: nat, n: nat,
                                       p: string)
    requires m <= n <= |fields| && p in FoundMembers(fields, path, found, m)
    ensures p in FoundMembers(fields, path, found, n)
    decreases fields, 0, n
  {
    if m < n {
      MembersKeep(fields, path, found, m, n - 1, p);
      var k := fields[n - 1].key;
      var here := MemberPath(path, k);
      FoundKeeps(fields[n - 1].value, here, Named(FoundMembers(fields, path, found, n - 1), k, here), p);
    }
  }

  lemma {:induction false} ItemsKeep(items: seq<Json>, path: string, found: seq<string>, m: nat, n: nat, p: string)
    requires m <= n <= |items| && p in FoundItems(items, path, found, m)
    ensures p in FoundItems(items, path, found, n)
    decreases items, 0, n
  {
    if m < n {
      ItemsKeep(items, path, found, m, n - 1, p);
      FoundKeeps(items[n - 1], ItemPath(path, n - 1), FoundItems(items, path, found, n - 1), p);
    }
  }

  lemma NamedIsFound(fields: seq<Property>, path: string, found: seq<string>, i: nat)
    requires i < |fields| && BadKey(fields[i].key)
    ensures MemberPath(path, fields[i].key) in FoundMembers(fields, path, found, |fields|)
  {
    var here := MemberPath(path, fields[i].key);
    FoundKeeps(fields[i].value, here, Named(FoundMembers(fields, path, found, i), fields[i].key, here), here);
    MembersKeep(fields, path, found, i + 1, |fields|, here);
  }

  lemma {:induction false} SuspectIsFound(node: Json, path: string, found: seq<string>, steps: seq<Step>, leaf: Json)
    requires Reaches(node, steps, leaf) && Marks(steps, leaf)
    ensures PathText(path, steps) in Found(node, path, found)
    decreases |steps|, 0
  {
    if |steps| > 0 {
      var child :| Child(node, steps[0], child) && Reaches(child, steps[1..], leaf);
      assert steps == [steps[0]] + steps[1..];
      PathTextCons(path, steps[0], steps[1..]);
      if Marks(steps[1..], leaf) {
        BelowIsFound(node, path, found, steps, child, leaf);
      } else {
        var i :| 0 <= i < |node.fields| && node.fields[i] == Field(steps[0].key, child);
        NamedIsFound(node.fields, path, found, i);
      }
    }
  }

  lemma {:induction false} BelowIsFound(
      node: Json, path: string, found: seq<string>, steps: seq<Step>, child: Json, leaf: Json)
    requires |steps| > 0 && Child(node, steps[0], child) && Reaches(child, steps[1..], leaf) && Marks(steps[1..], leaf)
    ensures PathText(path + StepText(steps[0]), steps[1..]) in Found(node, path, found)
    decreases |steps| - 1, 2
  {
    if steps[0].Member? {
      var i :| 0 <= i < |node.fields| && node.fields[i] == Field(steps[0].key, child);
      BelowMemberIsFound(node.fields, path, found, i, steps[1..], leaf);
    } else {
      BelowItemIsFound(node.items, path, found, steps[0].index, steps[1..], leaf);
    }
  }

  lemma {:induction false} BelowMemberIsFound(
      fields: seq<Property>, path: string, found: seq<string>, i: nat, rest: seq<Step>, leaf: Json)
    requires i < |fields| && Reaches(fields[i].value, rest, leaf) && Marks(rest, leaf)
    ensures PathText(MemberPath(path, fields[i].key), rest) in FoundMembers(fields, path, found, |fields|)
    decreases |rest|, 1
  {
    var here := MemberPath(path, fields[i].key);
    var before := Named(FoundMembers(fields, path, found, i), fields[i].key, here);
    SuspectIsFound(fields[i].value, here, before, rest, leaf);
    MembersKeep(fields, path, found, i + 1, |fields|, PathText(here, rest));
  }

  lemma {:induction false} BelowItemIsFound(
      items: seq<Json>, path: string, found: seq<string>, i: nat, rest: seq<Step>, leaf: Json)
    requires i < |items| && Reaches(items[i], rest, leaf) && Marks(rest, leaf)
    ensures PathText(ItemPath(path, i), rest) in FoundItems(items, path, found, |items|)
    decreases |rest|, 1
  {
    var here := ItemPath(path, i);
    SuspectIsFound(items[i], here, FoundItems(items, path, found, i), rest, leaf);
    ItemsKeep(items, path, found, i + 1, |items|, PathText(here, rest));
  }

  // For a document of any depth, the walk's paths are those of the keys naming a
  // secret and of the strings shaped like a credential, and no others.
  lemma FoundExactly(doc: Json, path: string, p: string)
    ensures p in Found(doc, path, []) <==> SuspectPath(doc, path, p)
  {
    if p in Found(doc, path, []) { FoundIsSuspect(doc, path, [], p); }
    if SuspectPath(doc, path, p) {
      var steps :| Suspect(doc, steps) && PathText(path, steps) == p;
      var leaf :| Reaches(doc, steps, leaf) && Marks(steps, leaf);
      SuspectIsFound(doc, path, [], steps, leaf);
    }
  }

  // The path of a leak: a text holding a credential, or whatever stands under a key that
  // names a secret, at any depth.
  ghost predicate Leak(steps: seq<Step>, leaf: Json) {
    || (leaf.Str? && HoldsCredential(leaf.s))
    || (|steps| > 0 && steps[|steps| - 1].Member? && NamesSecret(steps[|steps| - 1].key))
  }

  ghost predicate LeakAt(doc: Json, p: string) {
    exists steps, leaf :: Reaches(doc, steps, leaf) && Leak(steps, leaf) && PathText("$", steps) == p
  }

  lemma MarksIsLeak(steps: seq<Step>, leaf: Json)
    ensures Marks(steps, leaf) <==> Leak(steps, leaf)
  {
    if leaf.Str? { BadTextExactly(leaf.s); }
    if |steps| > 0 && steps[|steps| - 1].Member? { BadKeyExactly(steps[|steps| - 1].key); }
  }

  lemma SuspectIsLeak(doc: Json, p: string)
    ensures SuspectPath(doc, "$", p) <==> LeakAt(doc, p)
  {
    if SuspectPath(doc, "$", p) {
      var steps :| Suspect(doc, steps) && PathText("$", steps) == p;
      var leaf :| Reaches(doc, steps, leaf) && Marks(steps, leaf);
      MarksIsLeak(steps, leaf);
    }
    if LeakAt(doc, p) {
      var steps, leaf :| Reaches(doc, steps, leaf) && Leak(steps, leaf) && PathText("$", steps) == p;
      MarksIsLeak(steps, leaf);
      assert Suspect(doc, steps);
    }
  }

  // audit: the sorted, duplicate-free paths.
  method Audit(doc: Json) returns (paths: seq<string>)
    ensures forall i, j | 0 <= i < j < |paths| :: Less(paths[i], paths[j])
    ensures forall p :: p in paths <==> SuspectPath(doc, "$", p)
    ensures paths == [] <==> forall steps :: !Suspect(doc, steps)
    ensures forall p :: p in paths <==> LeakAt(doc, p)
  {
    var found := Walk(doc, "$", []);
    paths := Sort(set p | p in found);
    forall p ensures p in paths <==> SuspectPath(doc, "$", p) { FoundExactly(doc, "$", p); }
    forall p ensures SuspectPath(doc, "$", p) <==> LeakAt(doc, p) { SuspectIsLeak(doc, p); }
    if paths == [] {
      forall steps ensures !Suspect(doc, steps) {
        assert PathText("$", steps) !in paths;
      }
    } else {
      assert paths[0] in paths;
    }
  }
}
