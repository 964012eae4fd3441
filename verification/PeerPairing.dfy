// Pairing two Cores: redeem a displayed code, mint the reverse credential, link
// back, unpair (backend/wavr/api_peers.py). Any number of Cores run any number of
// pairings at once; requests and replies may be lost, and a request may still be
// handled after its sender has given up on it.
module PeerPairing {
  import opened Prelude

  type CoreId = nat

  // A row of the device store: a credential somebody may present to this Core.
  // holder is the Core it was minted for, pairing the confirm that caused it.
  datatype Device = Device(token: nat, holder: CoreId, revoked: bool, pairing: nat)

  // A row of the peer store: how this Core reaches the Core far. issued is the
  // token the row was created with, pairing the confirm that created it.
  datatype Peer = Peer(far: CoreId, localDevice: nat, token: Option<nat>, issued: nat, revoked: bool, pairing: nat)

  datatype CoreState = CoreState(
    devices: map<nat, Device>,
    index: map<nat, nat>,        // token (hash) -> device id, unique
    peers: map<nat, Peer>,
    codes: set<nat>)             // pairing codes on this Core's screen

  // -- One Core's handlers ------------------------------------------------------

  function AddDevice(c: CoreState, id: nat, token: nat, holder: CoreId, pairing: nat): CoreState {
    c.(devices := c.devices[id := Device(token, holder, false, pairing)], index := c.index[token := id])
  }

  // A displayed code is consumed and a credential minted for the requester.
  function Redeemed(c: CoreState, code: nat, id: nat, token: nat, requester: CoreId, pairing: nat): CoreState {
    AddDevice(c.(codes := c.codes - {code}), id, token, requester, pairing)
  }

  function RevokeDevice(c: CoreState, id: nat): CoreState {
    if id in c.devices then c.(devices := c.devices[id := c.devices[id].(revoked := true)]) else c
  }

  // The device a presented token authenticates as.
  function Verify(c: CoreState, token: nat): (d: Option<nat>) {
    if token in c.index && c.index[token] in c.devices && !c.devices[c.index[token]].revoked
    then Some(c.index[token]) else None
  }

  function AddPeer(c: CoreState, id: nat, far: CoreId, localDevice: nat, token: nat, pairing: nat): CoreState {
    c.(peers := c.peers[id := Peer(far, localDevice, Some(token), token, false, pairing)])
  }

  function Unpaired(c: CoreState, id: nat): CoreState {
    if id !in c.peers then c
    else RevokeDevice(c.(peers := c.peers[id := c.peers[id].(revoked := true, token := None)]), c.peers[id].localDevice)
  }

  // A Core's stores, changed in place by its handlers. Ids and secrets come from
  // the caller, standing for the system's random source.
  class Core {
    var devices: map<nat, Device>
    var index: map<nat, nat>
    var peers: map<nat, Peer>
    var codes: set<nat>

    function Model(): CoreState
      reads this
    {
      CoreState(devices, index, peers, codes)
    }

    constructor ()
      ensures Model() == CoreState(map[], map[], map[], {})
    {
      devices, index, peers, codes := map[], map[], map[], {};
    }

    method DeviceAdd(id: nat, token: nat, holder: CoreId, pairing: nat)
      modifies this
      ensures Model() == AddDevice(old(Model()), id, token, holder, pairing)
    {
      devices := devices[id := Device(token, holder, false, pairing)];
      index := index[token := id];
    }

    method DeviceRevoke(id: nat)
      modifies this`devices
      ensures Model() == RevokeDevice(old(Model()), id)
    {
      if id in devices { devices := devices[id := devices[id].(revoked := true)]; }
    }

    // POST /api/peers/redeem: the code is consumed once; a throttled or unknown
    // code mints nothing.
    method Redeem(code: nat, requester: CoreId, throttled: bool, id: nat, token: nat, pairing: nat)
      returns (granted: bool)
      modifies this
      ensures granted <==> !throttled && code in old(codes)
      ensures granted ==> Model() == Redeemed(old(Model()), code, id, token, requester, pairing)
      ensures granted ==> code !in codes && forall other | other != code :: other in codes <==> other in old(codes)
      ensures granted ==> Verify(Model(), token) == Some(id) && devices[id].holder == requester
      ensures granted ==> peers == old(peers) && forall d | d in old(devices) && d != id ::
                d in devices && devices[d] == old(devices)[d]
      ensures !granted ==> Model() == old(Model())
    {
      if throttled || code !in codes { return false; }
      codes := codes - {code};
      DeviceAdd(id, token, requester, pairing);
      granted := true;
    }

    // POST /api/peers/confirm, between its two requests: mint the other Core's
    // credential here and record how to reach it.
    method TakeGrant(far: CoreId, outbound: nat, id: nat, token: nat, peer: nat, pairing: nat)
      modifies this
      ensures Model() == AddPeer(AddDevice(old(Model()), id, token, far, pairing), peer, far, id, outbound, pairing)
    {
      DeviceAdd(id, token, far, pairing);
      peers := peers[peer := Peer(far, id, Some(outbound), outbound, false, pairing)];
    }

    // POST /api/peers/link-back: the row's own-id-for-them is the device the
    // bearer token authenticates as, never a value the caller sends.
    method LinkBack(bearer: nat, urlOk: bool, far: CoreId, outbound: nat, peer: nat, pairing: nat)
      returns (stored: bool)
      modifies this
      ensures stored <==> Verify(old(Model()), bearer).Some? && urlOk
      ensures stored ==>
                Model() == AddPeer(old(Model()), peer, far, Verify(old(Model()), bearer).value, outbound, pairing)
      ensures !stored ==> Model() == old(Model())
    {
      if !(bearer in index && index[bearer] in devices && !devices[index[bearer]].revoked) || !urlOk { return false; }
      peers := peers[peer := Peer(far, index[bearer], Some(outbound), outbound, false, pairing)];
      stored := true;
    }

    // DELETE /api/peers/{id}: both directions.
    method Unpair(id: nat) returns (known: bool)
      modifies this
      ensures known == (id in old(peers)) && Model() == Unpaired(old(Model()), id)
    {
      if id !in peers { return false; }
      var p := peers[id];
      peers := peers[id := p.(revoked := true, token := None)];
      DeviceRevoke(p.localDevice);
      known := true;
    }
  }

  // -- The protocol -------------------------------------------------------------

  datatype Grant = Grant(device: nat, token: nat)
  datatype Leg = Leg(device: nat, token: nat, peer: nat)
  datatype Link = NotSent | InFlight | Rejected | Stored(peer: nat)
  datatype Phase = AwaitRedeem | GaveUp | AwaitLink | Finished(reverseLegOk: bool)

  // One confirm call: started at Core at, with Core other.
  datatype Confirm = Confirm(
    at: CoreId, other: CoreId, code: nat,
    answered: bool,            // other has handled the redeem request
    grant: Option<Grant>,      // what it minted for at, if it accepted
    leg: Option<Leg>,          // what at minted for other, and at's peer row
    link: Link,                // what became of the link-back request
    phase: Phase)

  datatype State = State(cores: map<CoreId, CoreState>, confirms: map<nat, Confirm>, next: nat)

  datatype Step =
    | ShowCode(core: CoreId)
    | ExpireCode(core: CoreId, code: nat)
    | Begin(at: CoreId, other: CoreId, code: nat)
    | HandleRedeem(confirm: nat, throttled: bool)
    | RedeemLost(confirm: nat)
    | ReceiveGrant(confirm: nat)
    | HandleLink(confirm: nat, urlOk: bool)
    | LinkAcked(confirm: nat)
    | LinkLost(confirm: nat)
    | UnpairAt(core: CoreId, peer: nat)
    | RevokeAt(core: CoreId, device: nat)

  predicate Enabled(s: State, st: Step) {
    match st
    case ShowCode(x) => x in s.cores
    case ExpireCode(x, _) => x in s.cores
    case Begin(x, y, _) => x in s.cores && y in s.cores
    case HandleRedeem(k, _) => k in s.confirms && s.confirms[k].other in s.cores && !s.confirms[k].answered
    case RedeemLost(k) => k in s.confirms && s.confirms[k].phase == AwaitRedeem
    case ReceiveGrant(k) =>
      k in s.confirms && s.confirms[k].at in s.cores && s.confirms[k].phase == AwaitRedeem && s.confirms[k].grant.Some?
    case HandleLink(k, _) =>
      k in s.confirms && s.confirms[k].other in s.cores && s.confirms[k].link == InFlight
      && s.confirms[k].grant.Some? && s.confirms[k].leg.Some?
    case LinkAcked(k) => k in s.confirms && s.confirms[k].phase == AwaitLink && s.confirms[k].link.Stored?
    case LinkLost(k) =>
      k in s.confirms && s.confirms[k].phase == AwaitLink && s.confirms[k].at in s.cores && s.confirms[k].leg.Some?
    case UnpairAt(x, _) => x in s.cores
    case RevokeAt(x, _) => x in s.cores
  }

  // Each step as a change to at most one Core and at most one confirm.
  function Apply(s: State, st: Step): (s': State) {
    if !Enabled(s, st) then s
    else
      match st
      case ShowCode(x) => SetCore(s, x, s.cores[x].(codes := s.cores[x].codes + {s.next}), 1)
      case ExpireCode(x, code) => SetCore(s, x, s.cores[x].(codes := s.cores[x].codes - {code}), 0)
      case Begin(x, y, code) =>
        s.(confirms := s.confirms[s.next := Confirm(x, y, code, false, None, None, NotSent, AwaitRedeem)],
           next := s.next + 1)
      case HandleRedeem(k, throttled) =>
        var c := s.confirms[k];
        if throttled || c.code !in s.cores[c.other].codes then SetConfirm(s, k, c.(answered := true))
        else RedeemStep(s, k)
      case RedeemLost(k) => SetConfirm(s, k, s.confirms[k].(phase := GaveUp))
      case ReceiveGrant(k) => ReceiveStep(s, k)
      case HandleLink(k, urlOk) =>
        var c := s.confirms[k];
        var caller := Verify(s.cores[c.other], c.grant.value.token);
        if caller.None? || !urlOk then SetConfirm(s, k, c.(link := Rejected)) else LinkStep(s, k, caller.value)
      case LinkAcked(k) => SetConfirm(s, k, s.confirms[k].(phase := Finished(true)))
      case LinkLost(k) => LinkLostStep(s, k)
      case UnpairAt(x, p) => SetCore(s, x, Unpaired(s.cores[x], p), 0)
      case RevokeAt(x, d) => SetCore(s, x, RevokeDevice(s.cores[x], d), 0)
  }

  function SetCore(s: State, x: CoreId, c: CoreState, used: nat): State {
    s.(cores := s.cores[x := c], next := s.next + used)
  }

  function SetConfirm(s: State, k: nat, c: Confirm): State {
    s.(confirms := s.confirms[k := c])
  }

  function RedeemStep(s: State, k: nat): State
    requires k in s.confirms && s.confirms[k].other in s.cores
  {
    var c := s.confirms[k];
    SetConfirm(SetCore(s, c.other, Redeemed(s.cores[c.other], c.code, s.next, s.next + 1, c.at, k), 2),
               k, c.(answered := true, grant := Some(Grant(s.next, s.next + 1))))
  }

  function MintAndRecord(c: CoreState, far: CoreId, outbound: nat, pairing: nat, next: nat): CoreState {
    AddPeer(AddDevice(c, next, next + 1, far, pairing), next + 2, far, next, outbound, pairing)
  }

  function ReceiveStep(s: State, k: nat): State
    requires k in s.confirms && s.confirms[k].at in s.cores && s.confirms[k].grant.Some?
  {
    var c := s.confirms[k];
    SetConfirm(SetCore(s, c.at, MintAndRecord(s.cores[c.at], c.other, c.grant.value.token, k, s.next), 3),
               k, c.(leg := Some(Leg(s.next, s.next + 1, s.next + 2)), link := InFlight, phase := AwaitLink))
  }

  function LinkStep(s: State, k: nat, caller: nat): State
    requires k in s.confirms && s.confirms[k].other in s.cores && s.confirms[k].leg.Some?
  {
    var c := s.confirms[k];
    SetConfirm(SetCore(s, c.other, AddPeer(s.cores[c.other], s.next, c.at, caller, c.leg.value.token, k), 1),
               k, c.(link := Stored(s.next)))
  }

  function LinkLostStep(s: State, k: nat): State
    requires k in s.confirms && s.confirms[k].at in s.cores && s.confirms[k].leg.Some?
  {
    var c := s.confirms[k];
    SetConfirm(SetCore(s, c.at, RevokeDevice(s.cores[c.at], c.leg.value.device), 0), k, c.(phase := Finished(false)))
  }

  function Initial(ids: set<CoreId>): State {
    State(map x | x in ids :: CoreState(map[], map[], map[], {}), map[], 0)
  }

  function RunFrom(s: State, steps: seq<Step>): (s': State) {
    if |steps| == 0 then s else Apply(RunFrom(s, steps[..|steps| - 1]), steps[|steps| - 1])
  }

  // -- What every run keeps ------------------------------------------------------

  predicate HasDevice(s: State, x: CoreId, d: nat) { x in s.cores && d in s.cores[x].devices }
  predicate HasPeer(s: State, x: CoreId, p: nat) { x in s.cores && p in s.cores[x].peers }

  function DeviceOf(s: State, x: CoreId, d: nat): Device
    requires HasDevice(s, x, d)
  {
    s.cores[x].devices[d]
  }

  function PeerOf(s: State, x: CoreId, p: nat): Peer
    requires HasPeer(s, x, p)
  {
    s.cores[x].peers[p]
  }

  // d is a credential of Core x, minted for holder by a pairing, that token presents.
  ghost predicate Minted(s: State, x: CoreId, d: nat, token: nat, holder: CoreId, pairing: nat) {
    && HasDevice(s, x, d) && DeviceOf(s, x, d).token == token && DeviceOf(s, x, d).holder == holder
    && DeviceOf(s, x, d).pairing == pairing
    && token in s.cores[x].index && s.cores[x].index[token] == d
  }

  ghost predicate Revoked(s: State, x: CoreId, d: nat) {
    HasDevice(s, x, d) && DeviceOf(s, x, d).revoked
  }

  ghost predicate RowIs(s: State, x: CoreId, p: nat, far: CoreId, localDevice: nat, issued: nat, pairing: nat) {
    && HasPeer(s, x, p) && PeerOf(s, x, p).far == far && PeerOf(s, x, p).localDevice == localDevice
    && PeerOf(s, x, p).issued == issued && PeerOf(s, x, p).pairing == pairing
  }

  ghost predicate CoreFresh(c: CoreState, next: nat) {
    && (forall d | d in c.devices :: d < next)
    && (forall p | p in c.peers :: p < next)
    && (forall t | t in c.index :: t < next)
  }

  ghost predicate Fresh(s: State) {
    && (forall k | k in s.confirms :: k < s.next)
    && (forall x | x in s.cores :: CoreFresh(s.cores[x], s.next))
  }

  ghost predicate ConfirmOk(s: State, k: nat)
    requires k in s.confirms
  {
    var c := s.confirms[k];
    && c.at in s.cores && c.other in s.cores
    && (c.grant.Some? ==> c.answered && Minted(s, c.other, c.grant.value.device, c.grant.value.token, c.at, k))
    && (c.leg.Some? <==> c.phase.AwaitLink? || c.phase.Finished?)
    && (c.leg.Some? <==> !c.link.NotSent?)
    && (c.leg.Some? ==>
          && c.grant.Some? && c.grant.value.device < c.leg.value.device
          && Minted(s, c.at, c.leg.value.device, c.leg.value.token, c.other, k)
          && RowIs(s, c.at, c.leg.value.peer, c.other, c.leg.value.device, c.grant.value.token, k))
    && (c.link.Stored? ==> RowIs(s, c.other, c.link.peer, c.at, c.grant.value.device, c.leg.value.token, k))
    && (c.phase == Finished(true) ==> c.link.Stored?)
    && (c.phase == Finished(false) ==> Revoked(s, c.at, c.leg.value.device))
  }

  // A row was made by its pairing's confirm: as the initiator's row or as the
  // row the link-back stored.
  ghost predicate RowOk(s: State, x: CoreId, p: nat)
    requires HasPeer(s, x, p)
  {
    var row := PeerOf(s, x, p);
    && row.pairing in s.confirms
    && (var c := s.confirms[row.pairing];
        || (c.at == x && c.leg.Some? && c.leg.value.peer == p)
        || (c.other == x && c.link == Stored(p)))
    && (row.revoked <==> row.token.None?)
    && (row.token.Some? ==> row.token.value == row.issued)
    && (row.revoked ==> Revoked(s, x, row.localDevice))
  }

  ghost predicate Inv(s: State) {
    && Fresh(s)
    && (forall k {:trigger ConfirmOk(s, k)} | k in s.confirms :: ConfirmOk(s, k))
    && (forall x: nat, p: nat {:trigger RowOk(s, x, p)} | HasPeer(s, x, p) :: RowOk(s, x, p))
  }

  // What a step may do to a Core's stores: add rows under fresh ids, and revoke.
  ghost predicate CoreGrows(c: CoreState, c': CoreState) {
    && (forall d | d in c.devices ::
          d in c'.devices && c'.devices[d].token == c.devices[d].token && c'.devices[d].holder == c.devices[d].holder
          && c'.devices[d].pairing == c.devices[d].pairing
          && (c.devices[d].revoked ==> c'.devices[d].revoked))
    && (forall t | t in c.index :: t in c'.index && c'.index[t] == c.index[t])
    && (forall p | p in c.peers ::
          p in c'.peers && c'.peers[p].far == c.peers[p].far && c'.peers[p].localDevice == c.peers[p].localDevice
          && c'.peers[p].issued == c.peers[p].issued && c'.peers[p].pairing == c.peers[p].pairing
          && (c.peers[p].revoked ==> c'.peers[p].revoked))
  }

  ghost predicate Grows(s: State, s': State) {
    && s'.cores.Keys == s.cores.Keys
    && (forall x | x in s.cores :: CoreGrows(s.cores[x], s'.cores[x]))
  }
}
