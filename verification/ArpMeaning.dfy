// What the address and MAC tests of the device blocker mean, octet by octet and letter
// by letter.
module ArpMeaning {
  import opened Prelude
  import opened Text
  import opened Digits
  import opened ArpTarget

  predicate Octets(a: nat, b: nat, c: nat, d: nat) { a <= 255 && b <= 255 && c <= 255 && d <= 255 }

  // -- Ranges -----------------------------------------------------------------------

  lemma TopOctet(a: nat, b: nat, c: nat, d: nat)
    requires Octets(a, b, c, d)
    ensures Quad(a, b, c, d) / 0x100_0000 == a
    ensures Quad(a, b, c, d) / 0x1000_0000 == a / 16
    ensures Quad(a, b, c, d) / 0x1_0000 == a * 256 + b
  {
  }

  lemma OddNets(a: nat, b: nat, c: nat, d: nat)
    requires Octets(a, b, c, d)
    ensures Quad(a, b, c, d) / 0x10_0000 == a * 16 + b / 16
    ensures Quad(a, b, c, d) / 0x2_0000 == a * 128 + b / 2
    ensures Quad(a, b, c, d) / 256 == (a * 256 + b) * 256 + c
  {
  }

  lemma SmallNets(a: nat, b: nat, c: nat, d: nat)
    requires Octets(a, b, c, d)
    ensures Quad(a, b, c, d) / 8 == ((a * 256 + b) * 256 + c) * 32 + d / 8
    ensures Quad(a, b, c, d) / 2 == ((a * 256 + b) * 256 + c) * 128 + d / 2
  {
  }

  lemma InBigNets(a: nat, b: nat, c: nat, d: nat)
    requires Octets(a, b, c, d)
    ensures var q := Quad(a, b, c, d);
            && (InNet(q, Quad(0, 0, 0, 0), 0x100_0000) <==> a == 0)
            && (InNet(q, Quad(10, 0, 0, 0), 0x100_0000) <==> a == 10)
            && (InNet(q, Quad(127, 0, 0, 0), 0x100_0000) <==> a == 127)
            && (InNet(q, Quad(240, 0, 0, 0), 0x1000_0000) <==> a >= 240)
            && (InNet(q, Quad(169, 254, 0, 0), 0x1_0000) <==> a == 169 && b == 254)
            && (InNet(q, Quad(192, 168, 0, 0), 0x1_0000) <==> a == 192 && b == 168)
  {
    TopOctet(a, b, c, d);
  }

  lemma InOddNets(a: nat, b: nat, c: nat, d: nat)
    requires Octets(a, b, c, d)
    ensures var q := Quad(a, b, c, d);
            && (InNet(q, Quad(172, 16, 0, 0), 0x10_0000) <==> a == 172 && 16 <= b <= 31)
            && (InNet(q, Quad(198, 18, 0, 0), 0x2_0000) <==> a == 198 && 18 <= b <= 19)
            && (InNet(q, Quad(192, 0, 2, 0), 256) <==> a == 192 && b == 0 && c == 2)
            && (InNet(q, Quad(198, 51, 100, 0), 256) <==> a == 198 && b == 51 && c == 100)
            && (InNet(q, Quad(203, 0, 113, 0), 256) <==> a == 203 && b == 0 && c == 113)
  {
    OddNets(a, b, c, d);
  }

  lemma InSmallNets(a: nat, b: nat, c: nat, d: nat)
    requires Octets(a, b, c, d)
    ensures var q := Quad(a, b, c, d);
            && (InNet(q, Quad(192, 0, 0, 0), 8) <==> a == 192 && b == 0 && c == 0 && d <= 7)
            && (InNet(q, Quad(192, 0, 0, 170), 2) <==> a == 192 && b == 0 && c == 0 && (d == 170 || d == 171))
  {
    SmallNets(a, b, c, d);
  }

  lemma PrivateByOctets(a: nat, b: nat, c: nat, d: nat)
    requires Octets(a, b, c, d)
    ensures IsPrivate(Quad(a, b, c, d)) <==>
              || a == 0 || a == 10 || a == 127 || a >= 240
              || (a == 169 && b == 254) || (a == 172 && 16 <= b <= 31) || (a == 192 && b == 168)
              || (a == 192 && b == 0 && c == 0 && (d <= 7 || d == 170 || d == 171))
              || (a == 192 && b == 0 && c == 2) || (a == 198 && 18 <= b <= 19)
              || (a == 198 && b == 51 && c == 100) || (a == 203 && b == 0 && c == 113)
  {
    InBigNets(a, b, c, d);
    InOddNets(a, b, c, d);
    InSmallNets(a, b, c, d);
  }

  lemma RefusedByOctets(a: nat, b: nat, c: nat, d: nat)
    requires Octets(a, b, c, d)
    ensures IsRefusedRange(Quad(a, b, c, d)) <==>
              a == 127 || (a == 169 && b == 254) || a >= 224 || (a == 0 && b == 0 && c == 0 && d == 0)
  {
    TopOctet(a, b, c, d);
  }

  // -- Spelling of an address -----------------------------------------------------------

  function Dotted(a: nat, b: nat, c: nat, d: nat): (s: string) {
    Join([DigitsOf(a), DigitsOf(b), DigitsOf(c), DigitsOf(d)], '.')
  }

  lemma OctetReads(n: nat)
    requires n <= 255
    ensures ParseOctet(DigitsOf(n)) == Some(n) && '.' !in DigitsOf(n)
  {
    if n >= 10 { assert n / 10 < 100; }
    if n >= 100 { assert DigitsOf(n / 10) == DigitsOf(n / 10 / 10) + [DigitChar(n / 10 % 10)]; }
  }

  // A text is read as an address exactly when it is that address in dotted decimals.
  lemma AddressSpelledExactly(s: string, a: nat, b: nat, c: nat, d: nat)
    requires Octets(a, b, c, d)
    ensures ParseV4(s) == Some(Quad(a, b, c, d)) <==> s == Dotted(a, b, c, d)
  {
    OctetReads(a);
    OctetReads(b);
    OctetReads(c);
    OctetReads(d);
    SplitJoin([DigitsOf(a), DigitsOf(b), DigitsOf(c), DigitsOf(d)], '.');
    if ParseV4(s) == Some(Quad(a, b, c, d)) { V4Canonical(s, Dotted(a, b, c, d)); }
  }

  // -- Spelling of a MAC ----------------------------------------------------------------

  predicate Separator(c: char) { c == ':' || c == '-' || c == '.' }

  // One letter in either case.
  predicate SameLetter(c: char, d: char) {
    || ('A' <= c <= 'Z' && d as int == c as int + 32)
    || ('A' <= d <= 'Z' && c as int == d as int + 32)
  }

  predicate SameChar(c: char, d: char) { c == d || (Separator(c) && Separator(d)) || SameLetter(c, d) }

  lemma SameCharExactly(c: char, d: char)
    ensures NormChar(c) == NormChar(d) <==> SameChar(c, d)
  {
  }

  // Two texts are one MAC exactly when, without outer white space, they differ only in
  // case and in how the parts are separated.
  lemma SameMacExactly(s: string, t: string)
    ensures NormMac(s) == NormMac(t) <==>
              |Strip(s)| == |Strip(t)| && forall i | 0 <= i < |Strip(s)| :: SameChar(Strip(s)[i], Strip(t)[i])
  {
    NormMacAt(s);
    NormMacAt(t);
    forall c, d ensures NormChar(c) == NormChar(d) <==> SameChar(c, d) { SameCharExactly(c, d); }
    if |Strip(s)| == |Strip(t)| && forall i | 0 <= i < |Strip(s)| :: SameChar(Strip(s)[i], Strip(t)[i]) {
      forall i | 0 <= i < |NormMac(s)| ensures NormMac(s)[i] == NormMac(t)[i] {
        assert SameChar(Strip(s)[i], Strip(t)[i]);
      }
    }
    if NormMac(s) == NormMac(t) {
      forall i | 0 <= i < |Strip(s)| ensures SameChar(Strip(s)[i], Strip(t)[i]) {
        assert NormMac(s)[i] == NormMac(t)[i];
      }
    }
  }

  // -- Refusals ------------------------------------------------------------------------

  // Which address is refused for what; the first that applies is named.
  lemma AddressRefusedFor(ip: string, lip: string, denied: seq<string>)
    ensures var e := CheckAddress(ip, lip, denied);
            var a := ParseV4(ip);
            && (e == Err(NotAnAddress) <==> a.None?)
            && (e == Err(MetadataAddress) <==> a == Some(Quad(169, 254, 169, 254)))
            && (e == Err(NotPrivateLan) <==>
                  a.Some? && a.value != Quad(169, 254, 169, 254) && (!IsPrivate(a.value) || IsRefusedRange(a.value)))
            && (e == Err(IsThisHost) <==> Lan(a) && ip == lip)
            && (e == Err(IsTheGateway) <==> Lan(a) && ip != lip && ip in denied)
            && (e == Err(OutsideSubnet) <==> Lan(a) && ip != lip && ip !in denied && !SameSlash24(ip, lip))
            && (e.Err? ==> e.error in {NotAnAddress, MetadataAddress, NotPrivateLan, IsThisHost, IsTheGateway,
                                       OutsideSubnet})
  {
    assert IsRefusedRange(Quad(169, 254, 169, 254));
  }

  predicate Lan(a: Option<nat>) { a.Some? && IsPrivate(a.value) && !IsRefusedRange(a.value) }

  // Which request is refused before its address is looked at.
  lemma RequestRefusedFor(r: Request)
    ensures var e := FindCandidate(r);
            var m := NormMac(r.mac);
            && (e == Err(MacRequired) <==> m == "")
            && (e == Err(NoLocalIp) <==> m != "" && Strip(r.localIp) == "")
            && (e == Err(NoGateway) <==> m != "" && Strip(r.localIp) != "" && r.gateway.None?)
            && (e == Err(NotInInventory) <==> Asked(r) && forall d | d in r.inventory :: NormMac(d.mac) != m)
            && (e == Err(NoResolvedIp) <==>
                  Asked(r) && exists i: nat :: IsFirst(r.inventory, m, i)
                                               && !r.inventory[i].isGateway && Strip(r.inventory[i].ip) == "")
            && (e == Err(IsTheGateway) <==>
                  && m != "" && Strip(r.localIp) != "" && r.gateway.Some?
                  && (NormMac(r.gateway.value.mac) == m
                      || exists i: nat :: IsFirst(r.inventory, m, i) && r.inventory[i].isGateway))
  {
    var m := NormMac(r.mac);
    match FindMac(r.inventory, m) {
      case Some(d) =>
        FindMacExactly(r.inventory, m, d);
        var i: nat :| IsFirst(r.inventory, m, i) && r.inventory[i] == d;
        assert r.inventory[i] in r.inventory;
        forall j: nat | IsFirst(r.inventory, m, j) ensures j == i {}
      case None =>
        NoneListed(r.inventory, m);
    }
  }

  // The request is complete, and not for the gateway by its own MAC.
  predicate Asked(r: Request) {
    NormMac(r.mac) != "" && Strip(r.localIp) != "" && r.gateway.Some?
    && NormMac(r.gateway.value.mac) != NormMac(r.mac)
  }

  lemma {:induction false} NoneListed(inventory: seq<Device>, m: string)
    requires FindMac(inventory, m).None?
    ensures forall d | d in inventory :: NormMac(d.mac) != m
  {
    if |inventory| > 0 { NoneListed(inventory[1..], m); }
  }
}
