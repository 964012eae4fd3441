// Every step of the pairing protocol, and so every interleaving, keeps the invariant
// that ties peer rows to the credentials they name.
module PeerInvariant {
  import opened Prelude
  import opened PeerPairing

  lemma SetCoreGrows(s: State, x: CoreId, c: CoreState, used: nat)
    requires x in s.cores && CoreGrows(s.cores[x], c)
    ensures Grows(s, SetCore(s, x, c, used))
  {
  }

  lemma MintedKept(s: State, s': State, x: nat, d: nat, token: nat, holder: nat, pairing: nat)
    requires Grows(s, s') && Minted(s, x, d, token, holder, pairing)
    ensures Minted(s', x, d, token, holder, pairing)
  {
    assert CoreGrows(s.cores[x], s'.cores[x]);
  }

  lemma RevokedKept(s: State, s': State, x: nat, d: nat)
    requires Grows(s, s') && Revoked(s, x, d)
    ensures Revoked(s', x, d)
  {
    assert CoreGrows(s.cores[x], s'.cores[x]);
  }

  lemma RowIsKept(s: State, s': State, x: nat, p: nat, far: nat, localDevice: nat, issued: nat, pairing: nat)
    requires Grows(s, s') && RowIs(s, x, p, far, localDevice, issued, pairing)
    ensures RowIs(s', x, p, far, localDevice, issued, pairing)
  {
    assert CoreGrows(s.cores[x], s'.cores[x]);
  }

  lemma AddPeerGrows(c: CoreState, id: nat, far: CoreId, localDevice: nat, token: nat, pairing: nat, next: nat)
    requires CoreFresh(c, next) && next <= id
    ensures CoreGrows(c, AddPeer(c, id, far, localDevice, token, pairing))
  {
  }

  lemma UnpairedGrows(c: CoreState, id: nat)
    ensures CoreGrows(c, Unpaired(c, id))
    ensures CoreGrows(c, RevokeDevice(c, id))
  {
  }

  lemma RedeemGrows(s: State, k: nat)
    requires Fresh(s) && k in s.confirms && s.confirms[k].other in s.cores
    ensures Grows(s, RedeemStep(s, k))
  {
    var c := s.confirms[k];
    var core := Redeemed(s.cores[c.other], c.code, s.next, s.next + 1, c.at, k);
    SetCoreGrows(s, c.other, core, 2);
    assert RedeemStep(s, k).cores == SetCore(s, c.other, core, 2).cores;
  }

  lemma LinkGrows(s: State, k: nat, caller: nat)
    requires Fresh(s) && k in s.confirms && s.confirms[k].other in s.cores && s.confirms[k].leg.Some?
    ensures Grows(s, LinkStep(s, k, caller))
  {
    var c := s.confirms[k];
    AddPeerGrows(s.cores[c.other], s.next, c.at, caller, c.leg.value.token, k, s.next);
    SetCoreGrows(s, c.other, AddPeer(s.cores[c.other], s.next, c.at, caller, c.leg.value.token, k), 1);
  }

  lemma LinkLostGrows(s: State, k: nat)
    requires k in s.confirms && s.confirms[k].at in s.cores && s.confirms[k].leg.Some?
    ensures Grows(s, LinkLostStep(s, k))
  {
    var c := s.confirms[k];
    UnpairedGrows(s.cores[c.at], c.leg.value.device);
    SetCoreGrows(s, c.at, RevokeDevice(s.cores[c.at], c.leg.value.device), 0);
  }

  lemma StepGrows(s: State, st: Step)
    requires Fresh(s)
    ensures Grows(s, Apply(s, st))
  {
    if Enabled(s, st) {
      match st {
        case HandleRedeem(k, _) => RedeemGrows(s, k);
        case ReceiveGrant(k) =>
        case HandleLink(k, _) =>
          var caller := Verify(s.cores[s.confirms[k].other], s.confirms[k].grant.value.token);
          if caller.Some? { LinkGrows(s, k, caller.value); }
        case LinkLost(k) => LinkLostGrows(s, k);
        case UnpairAt(x, p) =>
          UnpairedGrows(s.cores[x], p);
          SetCoreGrows(s, x, Unpaired(s.cores[x], p), 0);
        case RevokeAt(x, d) =>
          UnpairedGrows(s.cores[x], d);
          SetCoreGrows(s, x, RevokeDevice(s.cores[x], d), 0);
        case _ =>
      }
    }
  }

  lemma StepKeepsFresh(s: State, st: Step)
    requires Fresh(s)
    ensures Fresh(Apply(s, st))
  {
    var s' := Apply(s, st);
    forall x | x in s'.cores ensures CoreFresh(s'.cores[x], s'.next) {
      assert CoreFresh(s.cores[x], s.next);
    }
  }

  // -- The confirms and the rows ------------------------------------------------

  ghost predicate ConfirmsGrow(s: State, s': State) {
    forall k | k in s.confirms ::
      && k in s'.confirms && s'.confirms[k].at == s.confirms[k].at && s'.confirms[k].other == s.confirms[k].other
      && (s.confirms[k].leg.Some? ==> s'.confirms[k].leg == s.confirms[k].leg)
      && (s.confirms[k].link.Stored? ==> s'.confirms[k].link == s.confirms[k].link)
  }

  // What a confirm says of the stores stays true of stores that only grow.
  lemma FactsKept(s: State, s': State, k: nat)
    requires Grows(s, s') && k in s.confirms && ConfirmOk(s, k)
    ensures var c := s.confirms[k];
            && c.at in s'.cores && c.other in s'.cores
            && (c.grant.Some? ==> Minted(s', c.other, c.grant.value.device, c.grant.value.token, c.at, k))
            && (c.leg.Some? ==>
                  && Minted(s', c.at, c.leg.value.device, c.leg.value.token, c.other, k)
                  && RowIs(s', c.at, c.leg.value.peer, c.other, c.leg.value.device, c.grant.value.token, k))
            && (c.link.Stored? ==> RowIs(s', c.other, c.link.peer, c.at, c.grant.value.device, c.leg.value.token, k))
            && (c.phase == Finished(false) ==> Revoked(s', c.at, c.leg.value.device))
  {
    var c := s.confirms[k];
    if c.grant.Some? { MintedKept(s, s', c.other, c.grant.value.device, c.grant.value.token, c.at, k); }
    if c.leg.Some? {
      MintedKept(s, s', c.at, c.leg.value.device, c.leg.value.token, c.other, k);
      RowIsKept(s, s', c.at, c.leg.value.peer, c.other, c.leg.value.device, c.grant.value.token, k);
    }
    if c.link.Stored? { RowIsKept(s, s', c.other, c.link.peer, c.at, c.grant.value.device, c.leg.value.token, k); }
    if c.phase == Finished(false) { RevokedKept(s, s', c.at, c.leg.value.device); }
  }

  lemma ConfirmKept(s: State, s': State, k: nat)
    requires Grows(s, s') && k in s.confirms && ConfirmOk(s, k)
    requires k in s'.confirms && s'.confirms[k] == s.confirms[k]
    ensures ConfirmOk(s', k)
  {
    FactsKept(s, s', k);
  }

  lemma RowKept(s: State, s': State, x: nat, p: nat)
    requires Grows(s, s') && ConfirmsGrow(s, s')
    requires HasPeer(s, x, p) && RowOk(s, x, p)
    requires HasPeer(s', x, p) && PeerOf(s', x, p) == PeerOf(s, x, p)
    ensures RowOk(s', x, p)
  {
    if PeerOf(s, x, p).revoked { RevokedKept(s, s', x, PeerOf(s, x, p).localDevice); }
  }

  // A row names a device of its own Core's store, minted for the Core it reaches.
  lemma RowNamesOwnDevice(s: State, x: nat, p: nat)
    requires Inv(s) && HasPeer(s, x, p)
    ensures var row := PeerOf(s, x, p);
            HasDevice(s, x, row.localDevice) && DeviceOf(s, x, row.localDevice).holder == row.far
  {
    assert RowOk(s, x, p);
    assert ConfirmOk(s, PeerOf(s, x, p).pairing);
  }

  // Everything but confirm k and the rows listed as new stays as it was.
  lemma InvFromParts(s: State, s': State, k: nat)
    requires Inv(s) && Fresh(s') && Grows(s, s') && ConfirmsGrow(s, s')
    requires k in s'.confirms ==> ConfirmOk(s', k)
    requires forall q | q in s'.confirms && q != k :: q in s.confirms && s'.confirms[q] == s.confirms[q]
    requires forall x: nat, p: nat | HasPeer(s', x, p) ::
               (HasPeer(s, x, p) && PeerOf(s', x, p) == PeerOf(s, x, p)) || RowOk(s', x, p)
    ensures Inv(s')
  {
    forall q | q in s'.confirms ensures ConfirmOk(s', q) {
      if q != k { ConfirmKept(s, s', q); }
    }
    forall x: nat, p: nat | HasPeer(s', x, p) ensures RowOk(s', x, p) {
      if HasPeer(s, x, p) && PeerOf(s', x, p) == PeerOf(s, x, p) { RowKept(s, s', x, p); }
    }
  }

  // A step on Core x and confirm k: what has to be shown of the new state is its
  // freshness, the confirm, and the rows of x that are not as they were.
  lemma InvStep(s: State, x: nat, c: CoreState, used: nat, k: nat, conf: Confirm)
    requires Inv(s) && x in s.cores && k in s.confirms && CoreGrows(s.cores[x], c)
    requires var b := s.confirms[k];
             && conf.at == b.at && conf.other == b.other
             && (b.leg.Some? ==> conf.leg == b.leg) && (b.link.Stored? ==> conf.link == b.link)
    requires Fresh(SetConfirm(SetCore(s, x, c, used), k, conf))
    requires ConfirmOk(SetConfirm(SetCore(s, x, c, used), k, conf), k)
    requires forall p | p in c.peers ::
               (p in s.cores[x].peers && c.peers[p] == s.cores[x].peers[p])
               || RowOk(SetConfirm(SetCore(s, x, c, used), k, conf), x, p)
    ensures Inv(SetConfirm(SetCore(s, x, c, used), k, conf))
  {
    SetCoreGrows(s, x, c, used);
    InvFromParts(s, SetConfirm(SetCore(s, x, c, used), k, conf), k);
  }

  lemma RedeemConfirmOk(s: State, k: nat)
    requires Inv(s) && k in s.confirms && s.confirms[k].other in s.cores && !s.confirms[k].answered
    ensures ConfirmOk(RedeemStep(s, k), k)
  {
    assert ConfirmOk(s, k);
    RedeemGrows(s, k);
    FactsKept(s, RedeemStep(s, k), k);
  }

  lemma RedeemKeepsInv(s: State, k: nat)
    requires Inv(s) && k in s.confirms && s.confirms[k].other in s.cores && !s.confirms[k].answered
    requires Fresh(RedeemStep(s, k))
    ensures Inv(RedeemStep(s, k))
  {
    var c := s.confirms[k];
    RedeemConfirmOk(s, k);
    InvStep(s, c.other, Redeemed(s.cores[c.other], c.code, s.next, s.next + 1, c.at, k), 2,
            k, c.(answered := true, grant := Some(Grant(s.next, s.next + 1))));
  }

  // The row and the credential confirm creates between its two requests.
  lemma ReceiveWrites(s: State, k: nat)
    requires Inv(s) && k in s.confirms && s.confirms[k].at in s.cores && s.confirms[k].grant.Some?
    ensures var c, s' := s.confirms[k], ReceiveStep(s, k);
            && Minted(s', c.at, s.next, s.next + 1, c.other, k)
            && RowIs(s', c.at, s.next + 2, c.other, s.next, c.grant.value.token, k)
            && RowOk(s', c.at, s.next + 2)
  {
  }

  lemma ReceiveConfirmOk(s: State, k: nat)
    requires Inv(s) && k in s.confirms && s.confirms[k].at in s.cores && s.confirms[k].grant.Some?
    requires s.confirms[k].phase == AwaitRedeem
    ensures ConfirmOk(ReceiveStep(s, k), k)
  {
    var c := s.confirms[k];
    assert ConfirmOk(s, k);
    ReceiveWrites(s, k);
    assert CoreFresh(s.cores[c.other], s.next);
    MintedKept(s, ReceiveStep(s, k), c.other, c.grant.value.device, c.grant.value.token, c.at, k);
  }

  lemma ReceiveKeepsInv(s: State, k: nat)
    requires Inv(s) && k in s.confirms && s.confirms[k].at in s.cores && s.confirms[k].grant.Some?
    requires s.confirms[k].phase == AwaitRedeem && Fresh(ReceiveStep(s, k))
    ensures Inv(ReceiveStep(s, k))
  {
    var c := s.confirms[k];
    var core := MintAndRecord(s.cores[c.at], c.other, c.grant.value.token, k, s.next);
    assert ConfirmOk(s, k);
    ReceiveConfirmOk(s, k);
    ReceiveWrites(s, k);
    InvStep(s, c.at, core, 3, k,
            c.(leg := Some(Leg(s.next, s.next + 1, s.next + 2)), link := InFlight, phase := AwaitLink));
  }

  lemma VerifyFinds(s: State, x: nat, d: nat, token: nat, holder: nat, pairing: nat)
    requires Minted(s, x, d, token, holder, pairing)
    ensures Verify(s.cores[x], token) == if Revoked(s, x, d) then None else Some(d)
  {
  }

  lemma LinkConfirmOk(s: State, k: nat, caller: nat)
    requires Inv(s) && k in s.confirms && s.confirms[k].other in s.cores && s.confirms[k].leg.Some?
    requires s.confirms[k].link == InFlight && s.confirms[k].grant.Some? && caller == s.confirms[k].grant.value.device
    ensures ConfirmOk(LinkStep(s, k, caller), k)
  {
    assert ConfirmOk(s, k);
    LinkGrows(s, k, caller);
    FactsKept(s, LinkStep(s, k, caller), k);
  }

  lemma LinkKeepsInv(s: State, k: nat, caller: nat)
    requires Inv(s) && k in s.confirms && s.confirms[k].other in s.cores && s.confirms[k].leg.Some?
    requires s.confirms[k].link == InFlight && s.confirms[k].grant.Some? && caller == s.confirms[k].grant.value.device
    requires Fresh(LinkStep(s, k, caller))
    ensures Inv(LinkStep(s, k, caller))
  {
    var c := s.confirms[k];
    var core := AddPeer(s.cores[c.other], s.next, c.at, caller, c.leg.value.token, k);
    assert CoreFresh(s.cores[c.other], s.next);
    AddPeerGrows(s.cores[c.other], s.next, c.at, caller, c.leg.value.token, k, s.next);
    LinkConfirmOk(s, k, caller);
    LinkRowOk(s, k, caller);
    InvStep(s, c.other, core, 1, k, c.(link := Stored(s.next)));
  }

  lemma LinkRowOk(s: State, k: nat, caller: nat)
    requires k in s.confirms && s.confirms[k].other in s.cores && s.confirms[k].leg.Some?
    ensures RowOk(LinkStep(s, k, caller), s.confirms[k].other, s.next)
  {
  }

  lemma LinkLostConfirmOk(s: State, k: nat)
    requires Inv(s) && k in s.confirms && s.confirms[k].at in s.cores && s.confirms[k].leg.Some?
    requires s.confirms[k].phase == AwaitLink
    ensures ConfirmOk(LinkLostStep(s, k), k)
  {
    assert ConfirmOk(s, k);
    LinkLostGrows(s, k);
    FactsKept(s, LinkLostStep(s, k), k);
  }

  lemma LinkLostKeepsInv(s: State, k: nat)
    requires Inv(s) && k in s.confirms && s.confirms[k].at in s.cores && s.confirms[k].leg.Some?
    requires s.confirms[k].phase == AwaitLink && Fresh(LinkLostStep(s, k))
    ensures Inv(LinkLostStep(s, k))
  {
    var c := s.confirms[k];
    UnpairedGrows(s.cores[c.at], c.leg.value.device);
    LinkLostConfirmOk(s, k);
    InvStep(s, c.at, RevokeDevice(s.cores[c.at], c.leg.value.device), 0, k, c.(phase := Finished(false)));
  }

  // A confirm that moves on without touching any store.
  lemma NoteKeepsInv(s: State, k: nat, c: Confirm)
    requires Inv(s) && k in s.confirms
    requires var b := s.confirms[k];
             && c.at == b.at && c.other == b.other && c.grant == b.grant && c.leg == b.leg
             && (b.answered ==> c.answered)
             && (c == b.(answered := true)
                 || (b.phase == AwaitRedeem && c == b.(phase := GaveUp))
                 || (b.link == InFlight && c == b.(link := Rejected))
                 || (b.phase == AwaitLink && b.link.Stored? && c == b.(phase := Finished(true))))
    ensures Inv(SetConfirm(s, k, c))
  {
    var s' := SetConfirm(s, k, c);
    assert ConfirmOk(s, k);
    assert Grows(s, s');
    FactsKept(s, s', k);
    InvFromParts(s, s', k);
  }

  lemma UnpairedRowOk(s: State, x: nat, p: nat)
    requires Inv(s) && HasPeer(s, x, p)
    ensures RowOk(SetCore(s, x, Unpaired(s.cores[x], p), 0), x, p)
  {
    RowNamesOwnDevice(s, x, p);
    assert RowOk(s, x, p);
  }

  lemma UnpairKeepsInv(s: State, x: nat, p: nat)
    requires Inv(s) && x in s.cores && Fresh(SetCore(s, x, Unpaired(s.cores[x], p), 0))
    ensures Inv(SetCore(s, x, Unpaired(s.cores[x], p), 0))
  {
    var s' := SetCore(s, x, Unpaired(s.cores[x], p), 0);
    UnpairedGrows(s.cores[x], p);
    SetCoreGrows(s, x, Unpaired(s.cores[x], p), 0);
    if HasPeer(s, x, p) { UnpairedRowOk(s, x, p); }
    forall y: nat, q: nat | HasPeer(s', y, q)
      ensures (HasPeer(s, y, q) && PeerOf(s', y, q) == PeerOf(s, y, q)) || RowOk(s', y, q)
    {
      UnpairedOthers(s, x, p, y, q);
    }
    InvFromParts(s, s', s'.next);
  }

  lemma UnpairedOthers(s: State, x: nat, p: nat, y: nat, q: nat)
    requires x in s.cores
    ensures var s' := SetCore(s, x, Unpaired(s.cores[x], p), 0);
            HasPeer(s', y, q) ==> HasPeer(s, y, q) && (PeerOf(s', y, q) == PeerOf(s, y, q) || (y == x && q == p))
  {
  }

  // A step that changes one Core and leaves its peer rows alone.
  lemma QuietCoreKeepsInv(s: State, x: nat, c: CoreState, used: nat)
    requires Inv(s) && x in s.cores && CoreGrows(s.cores[x], c) && c.peers == s.cores[x].peers
    requires Fresh(SetCore(s, x, c, used))
    ensures Inv(SetCore(s, x, c, used))
  {
    SetCoreGrows(s, x, c, used);
    InvFromParts(s, SetCore(s, x, c, used), s.next + used);
  }

  lemma BeginKeepsInv(s: State, x: nat, y: nat, code: nat)
    requires Inv(s) && x in s.cores && y in s.cores && Fresh(Apply(s, Begin(x, y, code)))
    ensures Inv(Apply(s, Begin(x, y, code)))
  {
    assert s.next !in s.confirms;
    InvFromParts(s, Apply(s, Begin(x, y, code)), s.next);
  }

  lemma StepKeepsInv(s: State, st: Step)
    requires Inv(s)
    ensures Inv(Apply(s, st))
  {
    StepKeepsFresh(s, st);
    if Enabled(s, st) {
      match st {
        case ShowCode(x) => QuietCoreKeepsInv(s, x, s.cores[x].(codes := s.cores[x].codes + {s.next}), 1);
        case ExpireCode(x, code) => QuietCoreKeepsInv(s, x, s.cores[x].(codes := s.cores[x].codes - {code}), 0);
        case Begin(x, y, code) => BeginKeepsInv(s, x, y, code);
        case HandleRedeem(k, throttled) =>
          var c := s.confirms[k];
          if throttled || c.code !in s.cores[c.other].codes { NoteKeepsInv(s, k, c.(answered := true)); }
          else { RedeemKeepsInv(s, k); }
        case RedeemLost(k) => NoteKeepsInv(s, k, s.confirms[k].(phase := GaveUp));
        case ReceiveGrant(k) => ReceiveKeepsInv(s, k);
        case HandleLink(k, urlOk) =>
          var c := s.confirms[k];
          var caller := Verify(s.cores[c.other], c.grant.value.token);
          if caller.None? || !urlOk { NoteKeepsInv(s, k, c.(link := Rejected)); }
          else {
            assert ConfirmOk(s, k);
            VerifyFinds(s, c.other, c.grant.value.device, c.grant.value.token, c.at, k);
            LinkKeepsInv(s, k, caller.value);
          }
        case LinkAcked(k) => NoteKeepsInv(s, k, s.confirms[k].(phase := Finished(true)));
        case LinkLost(k) => LinkLostKeepsInv(s, k);
        case UnpairAt(x, p) => UnpairKeepsInv(s, x, p);
        case RevokeAt(x, d) =>
          UnpairedGrows(s.cores[x], d);
          QuietCoreKeepsInv(s, x, RevokeDevice(s.cores[x], d), 0);
      }
    }
  }

  // -- Every run ------------------------------------------------------------------

  lemma InitialInv(ids: set<CoreId>)
    ensures Inv(Initial(ids))
  {
  }

  lemma GrowsTrans(a: State, b: State, c: State)
    requires Grows(a, b) && Grows(b, c)
    ensures Grows(a, c)
  {
    forall x | x in a.cores ensures CoreGrows(a.cores[x], c.cores[x]) {
      assert CoreGrows(a.cores[x], b.cores[x]) && CoreGrows(b.cores[x], c.cores[x]);
    }
  }

  lemma {:induction false} RunKeepsInv(s: State, steps: seq<Step>)
    requires Inv(s)
    ensures Inv(RunFrom(s, steps)) && Grows(s, RunFrom(s, steps)) && ConfirmsGrow(s, RunFrom(s, steps))
  {
    if |steps| > 0 {
      var front, last := steps[..|steps| - 1], steps[|steps| - 1];
      RunKeepsInv(s, front);
      var t := RunFrom(s, front);
      StepKeepsInv(t, last);
      StepGrows(t, last);
      GrowsTrans(s, t, Apply(t, last));
      StepConfirmsGrow(t, last);
    }
  }

  lemma StepConfirmsGrow(s: State, st: Step)
    requires Inv(s)
    ensures ConfirmsGrow(s, Apply(s, st))
  {
    if Enabled(s, st) && st.ReceiveGrant? { assert ConfirmOk(s, st.confirm); }
  }
}
