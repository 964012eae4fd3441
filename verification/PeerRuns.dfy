// What holds of peer rows and credentials in every interleaving of pairings.
module PeerRuns {
  import opened Prelude
  import opened PeerPairing
  import opened PeerInvariant

  // In every interleaving, a peer row's local_device_id is an id its own Core
  // minted, for the very Core the row reaches.
  lemma RowsNameOwnDevices(ids: set<CoreId>, steps: seq<Step>, x: nat, p: nat)
    requires HasPeer(RunFrom(Initial(ids), steps), x, p)
    ensures var s := RunFrom(Initial(ids), steps);
            var row := PeerOf(s, x, p);
            HasDevice(s, x, row.localDevice) && DeviceOf(s, x, row.localDevice).holder == row.far
  {
    InitialInv(ids);
    RunKeepsInv(Initial(ids), steps);
    RowNamesOwnDevice(RunFrom(Initial(ids), steps), x, p);
  }

  // The other end's row of the same pairing carries the token of the device this
  // row names.
  lemma EndsMatch(s: State, x: nat, p: nat, y: nat, q: nat)
    requires Inv(s) && HasPeer(s, x, p) && HasPeer(s, y, q) && (x, p) != (y, q)
    requires PeerOf(s, x, p).pairing == PeerOf(s, y, q).pairing
    ensures var row := PeerOf(s, x, p);
            && row.far == y && HasDevice(s, x, row.localDevice)
            && DeviceOf(s, x, row.localDevice).token == PeerOf(s, y, q).issued
            && PeerOf(s, y, q).issued in s.cores[x].index && s.cores[x].index[PeerOf(s, y, q).issued] == row.localDevice
  {
    assert RowOk(s, x, p) && RowOk(s, y, q);
    assert ConfirmOk(s, PeerOf(s, x, p).pairing);
  }

  // Unpairing on either side is final: from then on, whatever else happens, this
  // Core clears its own way out and rejects every call with the token it minted for
  // that peer, which is the one the other end's row holds.
  lemma UnpairIsFinal(ids: set<CoreId>, before: seq<Step>, x: nat, p: nat, after: seq<Step>)
    requires HasPeer(RunFrom(Initial(ids), before), x, p)
    ensures var s := RunFrom(Initial(ids), before);
            var end := RunFrom(Apply(s, UnpairAt(x, p)), after);
            && HasPeer(end, x, p) && PeerOf(end, x, p).token.None?
            && HasDevice(s, x, PeerOf(s, x, p).localDevice)
            && Verify(end.cores[x], DeviceOf(s, x, PeerOf(s, x, p).localDevice).token).None?
            && (forall y: nat, q: nat | HasPeer(end, y, q) && (y, q) != (x, p)
                  && PeerOf(end, y, q).pairing == PeerOf(s, x, p).pairing ::
                  Verify(end.cores[x], PeerOf(end, y, q).issued).None?)
  {
    InitialInv(ids);
    RunKeepsInv(Initial(ids), before);
    UnpairIsFinalFrom(RunFrom(Initial(ids), before), x, p, after);
  }

  lemma UnpairIsFinalFrom(s: State, x: nat, p: nat, after: seq<Step>)
    requires Inv(s) && HasPeer(s, x, p)
    ensures var end := RunFrom(Apply(s, UnpairAt(x, p)), after);
            && HasPeer(end, x, p) && PeerOf(end, x, p).token.None?
            && HasDevice(s, x, PeerOf(s, x, p).localDevice)
            && Verify(end.cores[x], DeviceOf(s, x, PeerOf(s, x, p).localDevice).token).None?
            && (forall y: nat, q: nat | HasPeer(end, y, q) && (y, q) != (x, p)
                  && PeerOf(end, y, q).pairing == PeerOf(s, x, p).pairing ::
                  Verify(end.cores[x], PeerOf(end, y, q).issued).None?)
  {
    var u := Apply(s, UnpairAt(x, p));
    RowNamesOwnDevice(s, x, p);
    StepKeepsInv(s, UnpairAt(x, p));
    RunKeepsInv(u, after);
    var end := RunFrom(u, after);
    UnpairedStays(s, u, end, x, p);
    forall y: nat, q: nat |
      HasPeer(end, y, q) && (y, q) != (x, p) && PeerOf(end, y, q).pairing == PeerOf(s, x, p).pairing
      ensures Verify(end.cores[x], PeerOf(end, y, q).issued).None?
    {
      EndsMatch(end, x, p, y, q);
    }
  }

  lemma UnpairedStays(s: State, u: State, end: State, x: nat, p: nat)
    requires Inv(s) && HasPeer(s, x, p) && HasDevice(s, x, PeerOf(s, x, p).localDevice)
    requires u == SetCore(s, x, Unpaired(s.cores[x], p), 0)
    requires Grows(u, end) && Inv(end)
    ensures HasPeer(end, x, p) && PeerOf(end, x, p).token.None? && PeerOf(end, x, p).revoked
    ensures PeerOf(end, x, p).pairing == PeerOf(s, x, p).pairing
    ensures PeerOf(end, x, p).localDevice == PeerOf(s, x, p).localDevice
    ensures Revoked(end, x, PeerOf(s, x, p).localDevice)
    ensures Verify(end.cores[x], DeviceOf(s, x, PeerOf(s, x, p).localDevice).token).None?
  {
    var d := PeerOf(s, x, p).localDevice;
    assert CoreGrows(u.cores[x], end.cores[x]);
    assert RowOk(s, x, p);
    var k := PeerOf(s, x, p).pairing;
    assert ConfirmOk(s, k);
    assert s.cores[x].index[DeviceOf(s, x, d).token] == d;
    assert RowOk(end, x, p);
  }

  // reverse_leg_ok tells the truth about the reverse leg. True: the other Core
  // stored the very token minted for it. False: that token opens nothing here,
  // now or later, even if the other Core did store it.
  lemma ReverseLegOkIsTrue(ids: set<CoreId>, steps: seq<Step>, k: nat, after: seq<Step>)
    requires k in RunFrom(Initial(ids), steps).confirms && RunFrom(Initial(ids), steps).confirms[k].phase.Finished?
    ensures var s := RunFrom(Initial(ids), steps);
            var c := s.confirms[k];
            var end := RunFrom(s, after);
            && c.leg.Some?
            && (c.phase.reverseLegOk ==>
                  exists q :: HasPeer(s, c.other, q) && PeerOf(s, c.other, q).far == c.at
                              && PeerOf(s, c.other, q).issued == c.leg.value.token)
            && (!c.phase.reverseLegOk ==> c.at in end.cores && Verify(end.cores[c.at], c.leg.value.token).None?)
  {
    var s := RunFrom(Initial(ids), steps);
    InitialInv(ids);
    RunKeepsInv(Initial(ids), steps);
    RunKeepsInv(s, after);
    var c := s.confirms[k];
    assert ConfirmOk(s, k);
    if c.phase.reverseLegOk {
      assert RowIs(s, c.other, c.link.peer, c.at, c.grant.value.device, c.leg.value.token, k);
    } else {
      MintedKept(s, RunFrom(s, after), c.at, c.leg.value.device, c.leg.value.token, c.other, k);
      RevokedKept(s, RunFrom(s, after), c.at, c.leg.value.device);
      VerifyFinds(RunFrom(s, after), c.at, c.leg.value.device, c.leg.value.token, c.other, k);
    }
  }

  // Whatever a Core presents from a peer row, the far end either rejects or takes
  // for a credential it minted for this very Core.
  lemma OutboundIsOurs(ids: set<CoreId>, steps: seq<Step>, x: nat, p: nat)
    requires HasPeer(RunFrom(Initial(ids), steps), x, p) && PeerOf(RunFrom(Initial(ids), steps), x, p).token.Some?
    ensures var s := RunFrom(Initial(ids), steps);
            var row := PeerOf(s, x, p);
            && row.far in s.cores
            && var d := Verify(s.cores[row.far], row.token.value);
               d.Some? ==> HasDevice(s, row.far, d.value) && DeviceOf(s, row.far, d.value).holder == x
  {
    var s := RunFrom(Initial(ids), steps);
    InitialInv(ids);
    RunKeepsInv(Initial(ids), steps);
    assert RowOk(s, x, p);
    assert ConfirmOk(s, PeerOf(s, x, p).pairing);
  }

  // The credential handed over by a redeem can be reached by the other Core's
  // unpair exactly when the link-back was stored: a pairing that fails earlier
  // leaves a live credential no peer row names.
  lemma ForwardCredentialNamedExactly(ids: set<CoreId>, steps: seq<Step>, k: nat)
    requires k in RunFrom(Initial(ids), steps).confirms && RunFrom(Initial(ids), steps).confirms[k].grant.Some?
    ensures var s := RunFrom(Initial(ids), steps);
            var c := s.confirms[k];
            (exists q :: HasPeer(s, c.other, q) && PeerOf(s, c.other, q).localDevice == c.grant.value.device)
            <==> c.link.Stored?
  {
    var s := RunFrom(Initial(ids), steps);
    InitialInv(ids);
    RunKeepsInv(Initial(ids), steps);
    var c := s.confirms[k];
    assert ConfirmOk(s, k);
    if c.link.Stored? {
      assert HasPeer(s, c.other, c.link.peer) && PeerOf(s, c.other, c.link.peer).localDevice == c.grant.value.device;
    }
    forall q | HasPeer(s, c.other, q) && PeerOf(s, c.other, q).localDevice == c.grant.value.device
      ensures c.link.Stored?
    {
      assert RowOk(s, c.other, q);
      assert ConfirmOk(s, PeerOf(s, c.other, q).pairing);
    }
  }

  // -- And is live ------------------------------------------------------------------

  // What could revoke a device in one step.
  predicate Revokes(s: State, st: Step, x: CoreId, d: nat) {
    match st
    case RevokeAt(y, e) => y == x && e == d
    case UnpairAt(y, p) => y == x && HasPeer(s, x, p) && PeerOf(s, x, p).localDevice == d
    case LinkLost(k) =>
      && k in s.confirms && s.confirms[k].at == x
      && s.confirms[k].leg.Some? && s.confirms[k].leg.value.device == d
    case _ => false
  }

  lemma DeviceStaysLive(s: State, st: Step, x: nat, d: nat)
    requires Fresh(s) && HasDevice(s, x, d) && !DeviceOf(s, x, d).revoked && !Revokes(s, st, x, d)
    ensures HasDevice(Apply(s, st), x, d) && !DeviceOf(Apply(s, st), x, d).revoked
  {
    assert CoreFresh(s.cores[x], s.next);
  }

  // Before its link is stored, nothing but a revocation by hand takes a grant back.
  lemma OnlyByHand(s: State, st: Step, k: nat)
    requires Inv(s) && k in s.confirms && s.confirms[k].grant.Some? && !s.confirms[k].link.Stored?
    requires st != RevokeAt(s.confirms[k].other, s.confirms[k].grant.value.device)
    ensures !Revokes(s, st, s.confirms[k].other, s.confirms[k].grant.value.device)
  {
    var c := s.confirms[k];
    var x, d := c.other, c.grant.value.device;
    assert ConfirmOk(s, k);
    match st {
      case UnpairAt(y, p) =>
        if y == x && HasPeer(s, x, p) {
          assert RowOk(s, x, p);
          assert ConfirmOk(s, PeerOf(s, x, p).pairing);
        }
      case LinkLost(j) =>
        if j in s.confirms { assert ConfirmOk(s, j); }
      case _ =>
    }
  }

  lemma StepKeepsGrant(s: State, st: Step, k: nat)
    requires Inv(s) && k in s.confirms
    ensures k in Apply(s, st).confirms
    ensures var c, c' := s.confirms[k], Apply(s, st).confirms[k];
            && c'.other == c.other && (c.grant.Some? ==> c'.grant == c.grant) && (c.link.Stored? ==> c'.link == c.link)
  {
    assert k < s.next;
    assert ConfirmOk(s, k);
  }

  // A grant that this step made is live.
  lemma NewGrantIsLive(s: State, st: Step, k: nat)
    requires Inv(s) && k in Apply(s, st).confirms && Apply(s, st).confirms[k].grant.Some?
    requires k !in s.confirms || s.confirms[k].grant.None?
    ensures var c := Apply(s, st).confirms[k];
            HasDevice(Apply(s, st), c.other, c.grant.value.device)
            && !DeviceOf(Apply(s, st), c.other, c.grant.value.device).revoked
  {
  }

  lemma {:induction false} GrantDeviceIsLive(ids: set<CoreId>, steps: seq<Step>, k: nat)
    requires var s := RunFrom(Initial(ids), steps);
             && k in s.confirms && s.confirms[k].grant.Some? && !s.confirms[k].link.Stored?
             && forall i | 0 <= i < |steps| ::
                  steps[i] != RevokeAt(s.confirms[k].other, s.confirms[k].grant.value.device)
    ensures var s := RunFrom(Initial(ids), steps);
            var c := s.confirms[k];
            HasDevice(s, c.other, c.grant.value.device) && !DeviceOf(s, c.other, c.grant.value.device).revoked
  {
    if |steps| > 0 {
      var front, st := steps[..|steps| - 1], steps[|steps| - 1];
      var s := RunFrom(Initial(ids), front);
      InitialInv(ids);
      RunKeepsInv(Initial(ids), front);
      if k in s.confirms && s.confirms[k].grant.Some? {
        StepKeepsGrant(s, st, k);
        GrantDeviceIsLive(ids, front, k);
        OnlyByHand(s, st, k);
        DeviceStaysLive(s, st, s.confirms[k].other, s.confirms[k].grant.value.device);
      } else {
        NewGrantIsLive(s, st, k);
      }
    }
  }

  // A grant whose link was never stored keeps opening the other Core's door: in every
  // run in which nobody revokes that device by hand, its token still verifies.
  lemma UnlinkedGrantVerifies(ids: set<CoreId>, steps: seq<Step>, k: nat)
    requires var s := RunFrom(Initial(ids), steps);
             && k in s.confirms && s.confirms[k].grant.Some? && !s.confirms[k].link.Stored?
             && forall i | 0 <= i < |steps| ::
                  steps[i] != RevokeAt(s.confirms[k].other, s.confirms[k].grant.value.device)
    ensures var s := RunFrom(Initial(ids), steps);
            var c := s.confirms[k];
            c.other in s.cores && Verify(s.cores[c.other], c.grant.value.token) == Some(c.grant.value.device)
  {
    GrantDeviceIsLive(ids, steps, k);
    InitialInv(ids);
    RunKeepsInv(Initial(ids), steps);
    assert ConfirmOk(RunFrom(Initial(ids), steps), k);
  }

  // It happens: the code is shown, redeemed, and the reply lost.
  lemma ReplyLostLeavesGrant()
    ensures var s := RunFrom(Initial({0, 1}), [ShowCode(1), Begin(0, 1, 0), HandleRedeem(1, false), RedeemLost(1)]);
            && 1 in s.confirms && s.confirms[1].grant.Some? && s.confirms[1].phase == GaveUp
            && 1 in s.cores && s.cores[1].peers == map[]
            && Verify(s.cores[1], s.confirms[1].grant.value.token).Some?
  {
    var a, b, c, e := ShowCode(1), Begin(0, 1, 0), HandleRedeem(1, false), RedeemLost(1);
    var all := [a, b, c, e];
    assert all[..3] == [a, b, c] && [a, b, c][..2] == [a, b] && [a, b][..1] == [a] && |[a][..0]| == 0;
    var s0 := Initial({0, 1});
    assert RunFrom(s0, [a]) == Apply(s0, a);
    assert RunFrom(s0, [a, b]) == Apply(RunFrom(s0, [a]), b);
    assert RunFrom(s0, [a, b, c]) == Apply(RunFrom(s0, [a, b]), c);
    assert RunFrom(s0, all) == Apply(RunFrom(s0, [a, b, c]), e);
  }

  // -- A pairing that completes ---------------------------------------------------

  function PairingSteps(): (steps: seq<Step>) {
    [ShowCode(1)] + [Begin(0, 1, 0)] + [HandleRedeem(1, false)] + [ReceiveGrant(1)] + [HandleLink(1, true)]
    + [LinkAcked(1)]
  }

  lemma RunStep(s: State, steps: seq<Step>, st: Step)
    ensures RunFrom(s, steps + [st]) == Apply(RunFrom(s, steps), st)
  {
    assert (steps + [st])[..|steps|] == steps;
  }

  // The state after the first three steps: the code is used up and a grant waits.
  lemma PairingGranted()
    ensures var s := RunFrom(Initial({0, 1}), [ShowCode(1)] + [Begin(0, 1, 0)] + [HandleRedeem(1, false)]);
            && s.cores == map[0 := CoreState(map[], map[], map[], {}),
                              1 := CoreState(map[2 := Device(3, 0, false, 1)], map[3 := 2], map[], {})]
            && s.confirms == map[1 := Confirm(0, 1, 0, true, Some(Grant(2, 3)), None, NotSent, AwaitRedeem)]
            && s.next == 4
  {
    var s0 := Initial({0, 1});
    var s1, s2 := Apply(s0, ShowCode(1)), Apply(Apply(s0, ShowCode(1)), Begin(0, 1, 0));
    RunStep(s0, [], ShowCode(1));
    RunStep(s0, [ShowCode(1)], Begin(0, 1, 0));
    RunStep(s0, [ShowCode(1)] + [Begin(0, 1, 0)], HandleRedeem(1, false));
    assert [] + [ShowCode(1)] == [ShowCode(1)];
    assert s1.cores[1].codes == {0} && s1.next == 1;
    assert s2.confirms == map[1 := Confirm(0, 1, 0, false, None, None, NotSent, AwaitRedeem)];
  }

  // Shown, redeemed, linked back and acknowledged: each Core has a row for the other,
  // whose token the other takes.
  lemma PairingCompletes()
    ensures var s := RunFrom(Initial({0, 1}), PairingSteps());
            && 1 in s.confirms && s.confirms[1].phase == Finished(true)
            && HasPeer(s, 0, 6) && PeerOf(s, 0, 6).far == 1 && HasPeer(s, 1, 7) && PeerOf(s, 1, 7).far == 0
            && PeerOf(s, 0, 6).token.Some? && Verify(s.cores[1], PeerOf(s, 0, 6).token.value).Some?
            && PeerOf(s, 1, 7).token.Some? && Verify(s.cores[0], PeerOf(s, 1, 7).token.value).Some?
            && s.cores[1].codes == {}
  {
    var s0 := Initial({0, 1});
    var three := [ShowCode(1)] + [Begin(0, 1, 0)] + [HandleRedeem(1, false)];
    PairingGranted();
    RunStep(s0, three, ReceiveGrant(1));
    RunStep(s0, three + [ReceiveGrant(1)], HandleLink(1, true));
    RunStep(s0, three + [ReceiveGrant(1)] + [HandleLink(1, true)], LinkAcked(1));
    LinkedBack(RunFrom(s0, three));
  }

  lemma LinkedBack(s: State)
    requires s.cores == map[0 := CoreState(map[], map[], map[], {}),
                            1 := CoreState(map[2 := Device(3, 0, false, 1)], map[3 := 2], map[], {})]
    requires s.confirms == map[1 := Confirm(0, 1, 0, true, Some(Grant(2, 3)), None, NotSent, AwaitRedeem)]
    requires s.next == 4
    ensures var t := Apply(Apply(Apply(s, ReceiveGrant(1)), HandleLink(1, true)), LinkAcked(1));
            && 1 in t.confirms && t.confirms[1].phase == Finished(true)
            && HasPeer(t, 0, 6) && PeerOf(t, 0, 6) == Peer(1, 4, Some(3), 3, false, 1)
            && HasPeer(t, 1, 7) && PeerOf(t, 1, 7) == Peer(0, 2, Some(5), 5, false, 1)
            && Verify(t.cores[1], 3) == Some(2) && Verify(t.cores[0], 5) == Some(4)
            && t.cores[1].codes == {}
  {
    var a := Apply(s, ReceiveGrant(1));
    assert a.cores[0].devices == map[4 := Device(5, 1, false, 1)] && a.cores[1] == s.cores[1] && a.next == 7;
    var b := Apply(a, HandleLink(1, true));
    assert b.confirms[1].link == Stored(7);
  }
}
