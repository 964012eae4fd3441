// Which device the ARP blocker may be pointed at (backend/wavr/arp_block.py).
module ArpTarget {
  import opened Prelude
  import opened Text
  import opened Digits

  datatype Device = Device(mac: string, ip: string, isGateway: bool)

  datatype Request = Request(mac: string, inventory: seq<Device>, gateway: Option<Device>,
                             localIp: string, gatewayIp: Option<string>)

  datatype Target = Target(mac: string, ip: string)

  datatype TargetError =
    | MacRequired
    | NoLocalIp
    | NoGateway
    | IsTheGateway
    | NotInInventory
    | NoResolvedIp
    | NotAnAddress
    | MetadataAddress
    | NotPrivateLan
    | IsThisHost
    | OutsideSubnet

  function NormMac(mac: string): (m: string) {
    Lower(ReplaceChar(ReplaceChar(Strip(mac), '-', ':'), '.', ':'))
  }

  function NormChar(c: char): char {
    if c == '-' || c == '.' then ':' else LowerChar(c)
  }

  lemma NormMacAt(mac: string)
    ensures |NormMac(mac)| == |Strip(mac)|
    ensures forall i | 0 <= i < |NormMac(mac)| :: NormMac(mac)[i] == NormChar(Strip(mac)[i])
  {
    var s := Strip(mac);
    var t := ReplaceChar(s, '-', ':');
    ReplaceCharAt(s, '-', ':');
    ReplaceCharAt(t, '.', ':');
    LowerAt(ReplaceChar(t, '.', ':'));
  }

  // However a MAC is spelled on the way in, it names the same block.
  lemma NormMacIdempotent(mac: string)
    ensures NormMac(NormMac(mac)) == NormMac(mac)
  {
    var m := NormMac(mac);
    NormMacAt(mac);
    StripStrips(mac);
    StripStrips(m);
    NormMacAt(m);
  }

  // -- IPv4 dotted decimal -------------------------------------------------

  function DigitOf(c: char): (d: nat)
    requires IsDigit(c)
    ensures d <= 9
  {
    c as int - '0' as int
  }

  // One octet: one to three digits, no leading zero, at most 255.
  function ParseOctet(s: string): (r: Option<nat>)
    ensures r.Some? ==> r.value <= 255
  {
    if |s| == 0 || |s| > 3 || !AllDigits(s) then None
    else if |s| > 1 && s[0] == '0' then None
    else
      var v := if |s| == 1 then DigitOf(s[0])
               else if |s| == 2 then 10 * DigitOf(s[0]) + DigitOf(s[1])
               else 100 * DigitOf(s[0]) + 10 * DigitOf(s[1]) + DigitOf(s[2]);
      if v > 255 then None else Some(v)
  }

  function ParseV4(s: string): (r: Option<nat>)
    ensures r.Some? ==> r.value < 0x1_0000_0000
  {
    var p := Split(s, '.');
    if |p| != 4 then None else ParseQuad(p)
  }

  function Quad(a: nat, b: nat, c: nat, d: nat): nat { ((a * 256 + b) * 256 + c) * 256 + d }

  function ParseQuad(p: seq<string>): (r: Option<nat>)
    requires |p| == 4
    ensures r.Some? ==> r.value < 0x1_0000_0000
  {
    match (ParseOctet(p[0]), ParseOctet(p[1]), ParseOctet(p[2]), ParseOctet(p[3]))
    case (Some(a), Some(b), Some(c), Some(d)) => Some(Quad(a, b, c, d))
    case _ => None
  }

  lemma OctetCanonical(s: string, t: string)
    requires ParseOctet(s).Some? && ParseOctet(s) == ParseOctet(t)
    ensures s == t
  {
    assert |s| == |t|;
    assert s[0] == t[0];
  }

  lemma SameJoined(s: string, t: string)
    requires |Split(s, '.')| == |Split(t, '.')| == 4
    requires forall i | 0 <= i < 4 :: Split(s, '.')[i] == Split(t, '.')[i]
    ensures s == t
  {
    assert Split(s, '.') == Split(t, '.');
    JoinSplit(s, '.');
    JoinSplit(t, '.');
  }

  lemma QuadIsOne(a: nat, b: nat, c: nat, d: nat, e: nat, f: nat, g: nat, h: nat)
    requires a <= 255 && b <= 255 && c <= 255 && d <= 255 && e <= 255 && f <= 255 && g <= 255 && h <= 255
    requires Quad(a, b, c, d) == Quad(e, f, g, h)
    ensures a == e && b == f && c == g && d == h
  {
  }

  // An address has one dotted spelling, so the guards that compare the text
  // compare the address.
  lemma V4Canonical(s: string, t: string)
    requires ParseV4(s).Some? && ParseV4(s) == ParseV4(t)
    ensures s == t
  {
    var p, q := Split(s, '.'), Split(t, '.');
    QuadIsOne(ParseOctet(p[0]).value, ParseOctet(p[1]).value, ParseOctet(p[2]).value, ParseOctet(p[3]).value,
              ParseOctet(q[0]).value, ParseOctet(q[1]).value, ParseOctet(q[2]).value, ParseOctet(q[3]).value);
    OctetCanonical(p[0], q[0]);
    OctetCanonical(p[1], q[1]);
    OctetCanonical(p[2], q[2]);
    OctetCanonical(p[3], q[3]);
    SameJoined(s, t);
  }

  predicate InNet(a: nat, base: nat, size: nat)
    requires size > 0
  {
    a / size == base / size
  }

  // The ranges Python's ipaddress calls private.
  predicate IsPrivate(a: nat) {
    || InNet(a, Quad(0, 0, 0, 0), 0x100_0000)
    || InNet(a, Quad(10, 0, 0, 0), 0x100_0000)
    || InNet(a, Quad(127, 0, 0, 0), 0x100_0000)
    || InNet(a, Quad(169, 254, 0, 0), 0x1_0000)
    || InNet(a, Quad(172, 16, 0, 0), 0x10_0000)
    || InNet(a, Quad(192, 0, 0, 0), 8)
    || InNet(a, Quad(192, 0, 0, 170), 2)
    || InNet(a, Quad(192, 0, 2, 0), 256)
    || InNet(a, Quad(192, 168, 0, 0), 0x1_0000)
    || InNet(a, Quad(198, 18, 0, 0), 0x2_0000)
    || InNet(a, Quad(198, 51, 100, 0), 256)
    || InNet(a, Quad(203, 0, 113, 0), 256)
    || InNet(a, Quad(240, 0, 0, 0), 0x1000_0000)
  }

  predicate IsRefusedRange(a: nat) {
    || InNet(a, Quad(127, 0, 0, 0), 0x100_0000)    // loopback
    || InNet(a, Quad(169, 254, 0, 0), 0x1_0000)    // link-local
    || InNet(a, Quad(224, 0, 0, 0), 0x1000_0000)   // multicast
    || InNet(a, Quad(240, 0, 0, 0), 0x1000_0000)   // reserved
    || a == 0                                      // unspecified
  }

  predicate SameSlash24(ip: string, localIp: string) {
    match (ParseV4(ip), ParseV4(localIp))
    case (Some(a), Some(l)) => a / 256 == l / 256
    case _ => false
  }

  function FindMac(inventory: seq<Device>, m: string): (r: Option<Device>) {
    if |inventory| == 0 then None
    else if NormMac(inventory[0].mac) == m then Some(inventory[0])
    else FindMac(inventory[1..], m)
  }

  // The i-th record is the first under that MAC.
  predicate IsFirst(inventory: seq<Device>, m: string, i: nat) {
    && i < |inventory| && NormMac(inventory[i].mac) == m
    && forall j | 0 <= j < i :: NormMac(inventory[j].mac) != m
  }

  lemma {:induction false} FindMacExactly(inventory: seq<Device>, m: string, d: Device)
    ensures FindMac(inventory, m) == Some(d) <==> exists i: nat :: IsFirst(inventory, m, i) && inventory[i] == d
  {
    if |inventory| > 0 {
      var rest := inventory[1..];
      forall i: nat | i < |rest| ensures rest[i] == inventory[i + 1] {}
      if NormMac(inventory[0].mac) == m {
        assert IsFirst(inventory, m, 0);
      } else {
        FindMacExactly(rest, m, d);
        if i: nat :| IsFirst(rest, m, i) && rest[i] == d { FirstShifts(inventory, m, i); }
        if i: nat :| IsFirst(inventory, m, i) && inventory[i] == d { FirstShifts(inventory, m, i - 1); }
      }
    }
  }

  lemma FirstShifts(inventory: seq<Device>, m: string, i: nat)
    requires |inventory| > 0 && NormMac(inventory[0].mac) != m
    ensures IsFirst(inventory[1..], m, i) <==> IsFirst(inventory, m, i + 1)
  {
    if IsFirst(inventory[1..], m, i) {
      forall j | 0 <= j < i + 1 ensures NormMac(inventory[j].mac) != m {
        if j > 0 { assert inventory[j] == inventory[1..][j - 1]; }
      }
    }
    if IsFirst(inventory, m, i + 1) {
      forall j | 0 <= j < i ensures NormMac(inventory[1..][j].mac) != m {
        assert inventory[1..][j] == inventory[j + 1];
      }
    }
  }

  // The addresses refused as the gateway: the flagged one and, when it is known,
  // the one derived without the inventory.
  function DeniedGatewayIps(r: Request): (ips: seq<string>) {
    [Strip(if r.gateway.Some? then r.gateway.value.ip else ""),
     Strip(if r.gatewayIp.Some? then r.gatewayIp.value else "")]
  }

  // 169.254.169.254. The source compares the canonical text of the parsed
  // address, which by V4Canonical is comparing the address.
  const METADATA_V4 := Quad(169, 254, 169, 254)

  function CheckAddress(ip: string, lip: string, denied: seq<string>): (res: Result<nat, TargetError>) {
    match ParseV4(ip)
    case None => Err(NotAnAddress)
    case Some(addr) =>
      if addr == METADATA_V4 then Err(MetadataAddress)
      else if !IsPrivate(addr) || IsRefusedRange(addr) then Err(NotPrivateLan)
      else if ip == lip then Err(IsThisHost)
      else if ip in denied then Err(IsTheGateway)
      else if !SameSlash24(ip, lip) then Err(OutsideSubnet)
      else Ok(addr)
  }

  // The device a request names and the text of its address, before the address
  // itself is judged.
  function FindCandidate(r: Request): (res: Result<Target, TargetError>) {
    var m := NormMac(r.mac);
    if m == "" then Err(MacRequired)
    else if Strip(r.localIp) == "" then Err(NoLocalIp)
    else if r.gateway.None? then Err(NoGateway)
    else if NormMac(r.gateway.value.mac) == m then Err(IsTheGateway)
    else
      match FindMac(r.inventory, m)
      case None => Err(NotInInventory)
      case Some(target) =>
        if target.isGateway then Err(IsTheGateway)
        else if Strip(target.ip) == "" then Err(NoResolvedIp)
        else Ok(Target(m, Strip(target.ip)))
  }

  function ValidateTarget(r: Request): (res: Result<Target, TargetError>) {
    match FindCandidate(r)
    case Err(e) => Err(e)
    case Ok(t) =>
      match CheckAddress(t.ip, Strip(r.localIp), DeniedGatewayIps(r))
      case Err(e) => Err(e)
      case Ok(_) => Ok(t)
  }

  ghost predicate SameAddress(s: string, t: string) {
    ParseV4(s).Some? && ParseV4(s) == ParseV4(t)
  }

  // A private address on the host's /24, outside the refused ranges, that is
  // neither the host's own address nor a denied one.
  ghost predicate SafeAddress(ip: string, lip: string, denied: seq<string>) {
    && ParseV4(ip).Some? && ParseV4(lip).Some?
    && IsPrivate(ParseV4(ip).value) && !IsRefusedRange(ParseV4(ip).value)
    && ParseV4(ip).value / 256 == ParseV4(lip).value / 256
    && !SameAddress(ip, lip)
    && forall i | 0 <= i < |denied| :: !SameAddress(ip, denied[i])
  }

  lemma SameAddressIffSameText(s: string, t: string)
    requires ParseV4(s).Some?
    ensures SameAddress(s, t) <==> s == t
  {
    if SameAddress(s, t) { V4Canonical(s, t); }
  }

  // The guards compare text; what they decide is about addresses.
  lemma AddressCheckedExactly(ip: string, lip: string, denied: seq<string>)
    ensures CheckAddress(ip, lip, denied).Ok? <==> SafeAddress(ip, lip, denied)
  {
    if ParseV4(ip).Some? {
      SameAddressIffSameText(ip, lip);
      forall i | 0 <= i < |denied| ensures SameAddress(ip, denied[i]) <==> ip == denied[i] {
        SameAddressIffSameText(ip, denied[i]);
      }
      assert ip in denied <==> exists i | 0 <= i < |denied| :: SameAddress(ip, denied[i]);
    }
  }

  // What an accepted target is: the first device of the inventory under its MAC, not
  // the gateway, at a safe address.
  ghost predicate SafeTarget(r: Request, t: Target) {
    && IsCandidate(r, t)
    && SafeAddress(t.ip, Strip(r.localIp), DeniedGatewayIps(r))
  }

  ghost predicate IsCandidate(r: Request, t: Target) {
    && t.mac != "" && t.mac == NormMac(r.mac) && t.ip != ""
    && (exists i: nat :: IsFirst(r.inventory, t.mac, i)
                         && !r.inventory[i].isGateway && Strip(r.inventory[i].ip) == t.ip)
    && r.gateway.Some? && NormMac(r.gateway.value.mac) != t.mac
    && Strip(r.localIp) != ""
  }

  lemma CandidateFound(r: Request, t: Target)
    ensures FindCandidate(r) == Ok(t) <==> IsCandidate(r, t)
  {
    if FindCandidate(r) == Ok(t) {
      FindMacExactly(r.inventory, t.mac, FindMac(r.inventory, t.mac).value);
    }
    if IsCandidate(r, t) {
      var i: nat :| IsFirst(r.inventory, t.mac, i)
                    && !r.inventory[i].isGateway && Strip(r.inventory[i].ip) == t.ip;
      FindMacExactly(r.inventory, t.mac, r.inventory[i]);
    }
  }

  lemma AcceptedIsSafe(r: Request, t: Target)
    requires ValidateTarget(r) == Ok(t)
    ensures SafeTarget(r, t)
    ensures NormMac(t.mac) == t.mac
  {
    AcceptedExactly(r, t);
    NormMacIdempotent(r.mac);
  }

  // The guards accept exactly the safe targets: nothing unsafe passes and nothing safe
  // is refused.
  lemma AcceptedExactly(r: Request, t: Target)
    ensures ValidateTarget(r) == Ok(t) <==> SafeTarget(r, t)
  {
    CandidateFound(r, t);
    AddressCheckedExactly(t.ip, Strip(r.localIp), DeniedGatewayIps(r));
  }
}
