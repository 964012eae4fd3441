// One displayed pairing code buys one credential, in every interleaving.
module PeerCodes {
  import opened Prelude
  import opened PeerPairing

  // A code that bought a credential is off the screen, and can never come back: codes
  // still to be shown are not smaller than next.
  ghost predicate UsedUp(s: State, k: nat)
    requires k in s.confirms
  {
    var c := s.confirms[k];
    c.other in s.cores && c.code !in s.cores[c.other].codes && c.code < s.next
  }

  ghost predicate BoughtBy(s: State, k: nat) { k in s.confirms && s.confirms[k].grant.Some? }

  ghost predicate CodesOk(s: State) {
    && (forall x, code | x in s.cores && code in s.cores[x].codes :: code < s.next)
    && (forall k | BoughtBy(s, k) :: UsedUp(s, k))
    && (forall j, k | BoughtBy(s, j) && BoughtBy(s, k) && s.confirms[j].other == s.confirms[k].other
                      && s.confirms[j].code == s.confirms[k].code :: j == k)
  }

  lemma StepKeepsCodes(s: State, st: Step)
    requires CodesOk(s)
    ensures CodesOk(Apply(s, st))
  {
    var s' := Apply(s, st);
    forall k | BoughtBy(s', k) ensures UsedUp(s', k) { GrantKeepsCode(s, st, k); }
    forall j, k | BoughtBy(s', j) && BoughtBy(s', k) && s'.confirms[j].other == s'.confirms[k].other
                  && s'.confirms[j].code == s'.confirms[k].code
      ensures j == k
    {
      GrantKeepsCode(s, st, j);
      GrantKeepsCode(s, st, k);
    }
  }

  // A grant is old, for the same code of the same Core, or was made by this step out of
  // a code then on the screen.
  lemma GrantKeepsCode(s: State, st: Step, k: nat)
    requires CodesOk(s) && BoughtBy(Apply(s, st), k)
    ensures UsedUp(Apply(s, st), k)
    ensures var c := Apply(s, st).confirms[k];
            || (BoughtBy(s, k) && s.confirms[k].other == c.other && s.confirms[k].code == c.code)
            || (st.HandleRedeem? && st.confirm == k && c.other in s.cores && c.code in s.cores[c.other].codes)
  {
    if BoughtBy(s, k) { assert UsedUp(s, k); }
  }

  // -- Codes come from the screen -----------------------------------------------------

  // Core x showed that code at step i.
  ghost predicate ShownAt(ids: set<CoreId>, steps: seq<Step>, i: nat, x: CoreId, code: nat) {
    i < |steps| && steps[i] == ShowCode(x) && x in ids && RunFrom(Initial(ids), steps[..i]).next == code
  }

  ghost predicate Shown(ids: set<CoreId>, steps: seq<Step>, x: CoreId, code: nat) {
    exists i: nat :: ShownAt(ids, steps, i, x, code)
  }

  lemma ShownLater(ids: set<CoreId>, steps: seq<Step>, x: CoreId, code: nat)
    requires |steps| > 0 && Shown(ids, steps[..|steps| - 1], x, code)
    ensures Shown(ids, steps, x, code)
  {
    var front := steps[..|steps| - 1];
    var i: nat :| ShownAt(ids, front, i, x, code);
    assert steps[..i] == front[..i];
    assert ShownAt(ids, steps, i, x, code);
  }

  lemma {:induction false} ScreenIsShown(ids: set<CoreId>, steps: seq<Step>, x: CoreId, code: nat)
    requires var s := RunFrom(Initial(ids), steps); x in s.cores && code in s.cores[x].codes
    ensures Shown(ids, steps, x, code)
  {
    if |steps| > 0 {
      var front, st := steps[..|steps| - 1], steps[|steps| - 1];
      var s := RunFrom(Initial(ids), front);
      CoresStay(ids, front);
      if code in s.cores[x].codes {
        ScreenIsShown(ids, front, x, code);
        ShownLater(ids, steps, x, code);
      } else {
        assert st == ShowCode(x) && code == s.next;
        assert ShownAt(ids, steps, |steps| - 1, x, code);
      }
    }
  }

  lemma {:induction false} CoresStay(ids: set<CoreId>, steps: seq<Step>)
    ensures RunFrom(Initial(ids), steps).cores.Keys == ids
  {
    if |steps| > 0 {
      CoresStay(ids, steps[..|steps| - 1]);
      StepKeepsCores(RunFrom(Initial(ids), steps[..|steps| - 1]), steps[|steps| - 1]);
    }
  }

  lemma StepKeepsCores(s: State, st: Step)
    ensures Apply(s, st).cores.Keys == s.cores.Keys
  {
  }

  // -- Every run ------------------------------------------------------------------------

  lemma {:induction false} RunKeepsCodes(ids: set<CoreId>, steps: seq<Step>)
    ensures CodesOk(RunFrom(Initial(ids), steps))
  {
    if |steps| > 0 {
      RunKeepsCodes(ids, steps[..|steps| - 1]);
      StepKeepsCodes(RunFrom(Initial(ids), steps[..|steps| - 1]), steps[|steps| - 1]);
    }
  }

  // Two confirms never both hold a credential for one code of one Core.
  lemma OneCodeOneCredential(ids: set<CoreId>, steps: seq<Step>, j: nat, k: nat)
    requires var s := RunFrom(Initial(ids), steps); BoughtBy(s, j) && BoughtBy(s, k)
    requires var s := RunFrom(Initial(ids), steps);
             s.confirms[j].other == s.confirms[k].other && s.confirms[j].code == s.confirms[k].code
    ensures j == k
  {
    RunKeepsCodes(ids, steps);
  }

  // And a credential is only ever had for a code that Core had shown, which is not on
  // its screen any more.
  lemma {:induction false} CredentialsAreForShownCodes(ids: set<CoreId>, steps: seq<Step>, k: nat)
    requires BoughtBy(RunFrom(Initial(ids), steps), k)
    ensures var s := RunFrom(Initial(ids), steps);
            var c := s.confirms[k];
            c.other in s.cores && c.code !in s.cores[c.other].codes && Shown(ids, steps, c.other, c.code)
  {
    RunKeepsCodes(ids, steps);
    if |steps| > 0 {
      var front, st := steps[..|steps| - 1], steps[|steps| - 1];
      var s := RunFrom(Initial(ids), front);
      RunKeepsCodes(ids, front);
      GrantKeepsCode(s, st, k);
      var c := Apply(s, st).confirms[k];
      if BoughtBy(s, k) && s.confirms[k].other == c.other && s.confirms[k].code == c.code {
        CredentialsAreForShownCodes(ids, front, k);
      } else {
        ScreenIsShown(ids, front, c.other, c.code);
      }
      ShownLater(ids, steps, c.other, c.code);
    }
  }
}
