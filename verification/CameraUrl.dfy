// Reading and replacing the host of a camera's stream URL without touching the
// rest of it (backend/wavr/camera_url.py). The authority is that of RFC 3986,
// section 3.2.
module CameraUrl {
  import opened Prelude
  import opened Text

  // The first place c occurs.
  function IndexOf(s: string, c: char): (i: Option<nat>)
    ensures i.Some? ==> i.value < |s| && s[i.value] == c && c !in s[..i.value]
    ensures i.None? ==> c !in s
  {
    if |s| == 0 then None
    else if s[0] == c then Some(0)
    else
      match IndexOf(s[1..], c)
      case None => None
      case Some(j) => assert s[..j + 1] == [s[0]] + s[1..][..j]; Some(j + 1)
  }

  // The last place c occurs.
  function LastIndexOf(s: string, c: char): (i: Option<nat>)
    ensures i.Some? ==> i.value < |s| && s[i.value] == c && c !in s[i.value + 1..]
    ensures i.None? ==> c !in s
  {
    if |s| == 0 then None
    else if s[|s| - 1] == c then Some(|s| - 1)
    else
      match LastIndexOf(s[..|s| - 1], c)
      case None => assert s == s[..|s| - 1] + [s[|s| - 1]]; None
      case Some(j) => assert s[j + 1..] == s[..|s| - 1][j + 1..] + [s[|s| - 1]]; Some(j)
  }

  // The first "://".
  predicate SepAt(s: string, i: nat) {
    i + 3 <= |s| && s[i] == ':' && s[i + 1] == '/' && s[i + 2] == '/'
  }

  lemma SepExactly(s: string, i: nat)
    ensures SepAt(s, i) <==> i + 3 <= |s| && s[i..i + 3] == "://"
  {
  }

  function FindSep(s: string, from: nat): (i: Option<nat>)
    requires from <= |s|
    ensures i.Some? ==> from <= i.value && SepAt(s, i.value) && forall j: nat | from <= j < i.value :: !SepAt(s, j)
    ensures i.None? ==> forall j: nat | from <= j :: !SepAt(s, j)
    decreases |s| - from
  {
    if from == |s| then None else if SepAt(s, from) then Some(from) else FindSep(s, from + 1)
  }

  predicate IsDelim(c: char) { c == '/' || c == '?' || c == '#' }

  ghost predicate NoDelim(s: string) { forall i | 0 <= i < |s| :: !IsDelim(s[i]) }

  // -- _split_authority --------------------------------------------------------

  datatype Split3 = Split3(scheme: string, authority: string, tail: string)

  // What a split is: the text around the first "://", cut again at the first of
  // "/", "?" and "#".
  ghost predicate IsSplit(url: string, p: Split3) {
    && url == p.scheme + "://" + p.authority + p.tail
    && (forall j: nat | j < |p.scheme| :: !SepAt(url, j))
    && NoDelim(p.authority)
    && (|p.tail| > 0 ==> IsDelim(p.tail[0]))
  }

  method SplitAuthority(url: string) returns (r: Option<Split3>)
    ensures r.Some? ==> IsSplit(url, r.value)
    ensures r.None? ==> forall j: nat :: !SepAt(url, j)
  {
    var sep := FindSep(url, 0);
    if sep.None? { return None; }
    var scheme, rest := url[..sep.value], url[sep.value + 3..];
    var cut := |rest|;
    var delims := "/?#";
    for k := 0 to 3
      invariant 0 <= cut <= |rest|
      invariant cut < |rest| ==> IsDelim(rest[cut])
      invariant forall j, q | 0 <= j < cut && 0 <= q < k :: rest[j] != delims[q]
    {
      var i := IndexOf(rest, delims[k]);
      if i.Some? && i.value < cut {
        forall j | 0 <= j < i.value ensures rest[j] != delims[k] {
          assert rest[j] in rest[..i.value] by { assert rest[..i.value][j] == rest[j]; }
        }
        cut := i.value;
      } else {
        forall j | 0 <= j < cut ensures rest[j] != delims[k] {
          if i.Some? { assert rest[..i.value][j] == rest[j]; }
        }
      }
    }
    r := Some(Split3(scheme, rest[..cut], rest[cut..]));
    forall j | 0 <= j < cut ensures !IsDelim(rest[j]) {
      assert rest[j] != delims[0] && rest[j] != delims[1] && rest[j] != delims[2];
    }
    CutIsSplit(url, sep.value, cut);
  }

  lemma CutIsSplit(url: string, sep: nat, cut: nat)
    requires SepAt(url, sep) && forall j: nat | j < sep :: !SepAt(url, j)
    requires var rest := url[sep + 3..];
             cut <= |rest| && NoDelim(rest[..cut]) && (cut < |rest| ==> IsDelim(rest[cut]))
    ensures var rest := url[sep + 3..]; IsSplit(url, Split3(url[..sep], rest[..cut], rest[cut..]))
  {
    var rest := url[sep + 3..];
    SepExactly(url, sep);
    assert url == url[..sep] + url[sep..sep + 3] + rest;
    assert rest == rest[..cut] + rest[cut..];
    assert url[..sep] + "://" + (rest[..cut] + rest[cut..]) == url[..sep] + "://" + rest[..cut] + rest[cut..];
  }

  lemma EndsByDelim(rest: string, a: string, tail: string, b: string)
    requires rest == a + tail && b <= rest && NoDelim(b)
    requires |tail| > 0 ==> IsDelim(tail[0])
    ensures |b| <= |a|
  {
    if |tail| > 0 {
      assert IsDelim(rest[|a|]);
      forall i | 0 <= i < |b| ensures !IsDelim(rest[i]) { assert b[i] == rest[i]; }
    }
  }

  // A URL splits one way only.
  lemma SplitUnique(url: string, p: Split3, q: Split3)
    requires IsSplit(url, p) && IsSplit(url, q)
    ensures p == q
  {
    assert SepAt(url, |p.scheme|) && SepAt(url, |q.scheme|);
    assert |p.scheme| == |q.scheme|;
    assert p.scheme == url[..|p.scheme|] && q.scheme == url[..|q.scheme|];
    var rest := url[|p.scheme| + 3..];
    assert rest == p.authority + p.tail && rest == q.authority + q.tail;
    EndsByDelim(rest, p.authority, p.tail, q.authority);
    EndsByDelim(rest, q.authority, q.tail, p.authority);
    assert p.authority == rest[..|p.authority|] && q.authority == rest[..|q.authority|];
    assert p.tail == rest[|p.authority|..] && q.tail == rest[|q.authority|..];
  }

  // -- The parts of a URL --------------------------------------------------------

  // userinfo is empty or ends in "@"; hostport is what follows the last "@".
  datatype Parts = Parts(scheme: string, userinfo: string, hostport: string, tail: string)

  function Render(p: Parts): string {
    p.scheme + "://" + (p.userinfo + p.hostport) + p.tail
  }

  ghost predicate ValidParts(p: Parts) {
    && (forall j: nat | j < |p.scheme| :: !SepAt(Render(p), j))
    && (|p.userinfo| > 0 ==> p.userinfo[|p.userinfo| - 1] == '@')
    && '@' !in p.hostport
    && NoDelim(p.userinfo) && NoDelim(p.hostport)
    && (|p.tail| > 0 ==> IsDelim(p.tail[0]))
  }

  ghost predicate IsParts(url: string, p: Parts) {
    url == Render(p) && ValidParts(p)
  }

  lemma NoDelimConcat(a: string, b: string)
    ensures NoDelim(a + b) <==> NoDelim(a) && NoDelim(b)
  {
    if NoDelim(a + b) {
      forall i | 0 <= i < |a| ensures !IsDelim(a[i]) { assert (a + b)[i] == a[i]; }
      forall i | 0 <= i < |b| ensures !IsDelim(b[i]) { assert (a + b)[|a| + i] == b[i]; }
    }
  }

  lemma BeginsAfterAt(a: string, userinfo: string, hostport: string, other: string)
    requires a == userinfo + hostport && '@' !in hostport && other <= a
    requires |other| > 0 ==> other[|other| - 1] == '@'
    ensures |other| <= |userinfo|
  {
    forall i | |userinfo| <= i < |a| ensures a[i] != '@' { assert a[i] == hostport[i - |userinfo|]; }
    if |other| > 0 { assert a[|other| - 1] == '@'; }
  }

  // Parts are read off a URL uniquely: rendering and reading are inverse.
  lemma PartsUnique(url: string, p: Parts, q: Parts)
    requires IsParts(url, p) && IsParts(url, q)
    ensures p == q
  {
    NoDelimConcat(p.userinfo, p.hostport);
    NoDelimConcat(q.userinfo, q.hostport);
    var a, b := p.userinfo + p.hostport, q.userinfo + q.hostport;
    SplitUnique(url, Split3(p.scheme, a, p.tail), Split3(q.scheme, b, q.tail));
    assert a == b;
    BeginsAfterAt(a, p.userinfo, p.hostport, q.userinfo);
    BeginsAfterAt(a, q.userinfo, q.hostport, p.userinfo);
    assert p.userinfo == a[..|p.userinfo|] && q.userinfo == b[..|q.userinfo|];
    assert p.hostport == a[|p.userinfo|..] && q.hostport == b[|q.userinfo|..];
  }

  ghost function PartsOf(url: string): (r: Option<Parts>) {
    if exists p :: IsParts(url, p) then
      var p :| IsParts(url, p);
      Some(p)
    else None
  }

  lemma PartsOfIs(url: string, p: Parts)
    requires IsParts(url, p)
    ensures PartsOf(url) == Some(p)
  {
    PartsUnique(url, p, PartsOf(url).value);
  }

  lemma NoPartsWithoutSep(url: string)
    requires forall j: nat :: !SepAt(url, j)
    ensures PartsOf(url) == None
  {
    forall p ensures !IsParts(url, p) {
      var r := Render(p);
      assert r[|p.scheme|] == ':' && r[|p.scheme| + 1] == '/' && r[|p.scheme| + 2] == '/';
      assert SepAt(r, |p.scheme|);
    }
  }

  method ReadParts(url: string) returns (r: Option<Parts>)
    ensures r == PartsOf(url)
  {
    var s := SplitAuthority(url);
    if s.None? {
      NoPartsWithoutSep(url);
      return None;
    }
    var a := s.value.authority;
    var at := LastIndexOf(a, '@');
    var cut := if at.Some? then at.value + 1 else 0;
    assert a == a[..cut] + a[cut..];
    NoDelimConcat(a[..cut], a[cut..]);
    r := Some(Parts(s.value.scheme, a[..cut], a[cut..], s.value.tail));
    assert url == Render(r.value);
    PartsOfIs(url, r.value);
  }

  // -- Host and port ----------------------------------------------------------------

  predicate Bracketed(hostport: string) { |hostport| > 0 && hostport[0] == '[' }

  // The host text inside host[:port] or [host][:port].
  function HostIn(hostport: string): (h: Option<string>) {
    if |hostport| == 0 then None
    else if Bracketed(hostport) then
      match IndexOf(hostport, ']')
      case None => None
      case Some(end) => if end == 1 then None else Some(hostport[1..end])
    else
      match LastIndexOf(hostport, ':')
      case None => Some(hostport)
      case Some(i) => Some(if i == 0 then hostport else hostport[..i])
  }

  // What follows the host: ":port", or nothing.
  function PortIn(hostport: string): (p: Option<string>) {
    if |hostport| == 0 then None
    else if Bracketed(hostport) then
      match IndexOf(hostport, ']')
      case None => None
      case Some(end) => Some(hostport[end + 1..])
    else
      match LastIndexOf(hostport, ':')
      case None => Some("")
      case Some(i) => Some(hostport[i..])
  }

  lemma BracketedSpelled(h: string, p: string)
    requires ']' !in h
    ensures HostIn("[" + h + "]" + p) == (if h == "" then None else Some(h))
    ensures PortIn("[" + h + "]" + p) == Some(p)
  {
    var hp := "[" + h + "]" + p;
    FirstAt("[" + h, ']', p);
    assert hp == ("[" + h) + [']'] + p;
    assert hp[1..|h| + 1] == h && hp[|h| + 2..] == p;
  }

  lemma UnclosedSpelled(h: string)
    requires ']' !in h
    ensures HostIn("[" + h) == None && PortIn("[" + h) == None
  {
  }

  lemma PlainSpelled(h: string, p: string)
    requires ':' !in p && h != "" && h[0] != '['
    ensures HostIn(h + ":" + p) == Some(h) && PortIn(h + ":" + p) == Some(":" + p)
    ensures ':' !in h ==> HostIn(h) == Some(h) && PortIn(h) == Some("")
  {
    var hp := h + ":" + p;
    LastAt(h, ':', p);
    assert hp == h + [':'] + p;
    assert hp[..|h|] == h && hp[|h|..] == ":" + p;
  }

  lemma PortOnlySpelled(p: string)
    requires ':' !in p
    ensures HostIn(":" + p) == Some(":" + p) && PortIn(":" + p) == Some(":" + p)
  {
    LastAt("", ':', p);
    assert ":" + p == "" + [':'] + p;
  }

  // The ways a host and a port are written, and what is read from them.
  lemma HostPortSpelled(h: string, p: string)
    requires ':' !in p
    ensures ']' !in h ==>
              && HostIn("[" + h + "]" + p) == (if h == "" then None else Some(h))
              && PortIn("[" + h + "]" + p) == Some(p)
              && HostIn("[" + h) == None && PortIn("[" + h) == None
    ensures h != "" && h[0] != '[' ==>
              && HostIn(h + ":" + p) == Some(h) && PortIn(h + ":" + p) == Some(":" + p)
              && (':' !in h ==> HostIn(h) == Some(h) && PortIn(h) == Some(""))
    ensures HostIn(":" + p) == Some(":" + p) && PortIn(":" + p) == Some(":" + p)
    ensures HostIn("") == None && PortIn("") == None
  {
    if ']' !in h {
      BracketedSpelled(h, p);
      UnclosedSpelled(h);
    }
    if h != "" && h[0] != '[' { PlainSpelled(h, p); }
    PortOnlySpelled(p);
  }

  lemma FirstAt(a: string, c: char, b: string)
    requires c !in a
    ensures IndexOf(a + [c] + b, c) == Some(|a|)
  {
    var s := a + [c] + b;
    assert s[|a|] == c && s[..|a|] == a;
    FirstIs(s, c, |a|);
  }

  lemma {:induction false} FirstIs(s: string, c: char, i: nat)
    requires i < |s| && s[i] == c && c !in s[..i]
    ensures IndexOf(s, c) == Some(i)
  {
    if i > 0 {
      assert s[0] in s[..i] && s[..i] == [s[0]] + s[1..][..i - 1];
      FirstIs(s[1..], c, i - 1);
    }
  }

  lemma LastAt(a: string, c: char, b: string)
    requires c !in b
    ensures LastIndexOf(a + [c] + b, c) == Some(|a|)
  {
    var s := a + [c] + b;
    assert s[|a|] == c && s[|a| + 1..] == b;
    LastIs(s, c, |a|);
  }

  lemma {:induction false} LastIs(s: string, c: char, i: nat)
    requires i < |s| && s[i] == c && c !in s[i + 1..]
    ensures LastIndexOf(s, c) == Some(i)
  {
    if i < |s| - 1 {
      assert s[|s| - 1] in s[i + 1..] && s[i + 1..] == s[..|s| - 1][i + 1..] + [s[|s| - 1]];
      LastIs(s[..|s| - 1], c, i);
    }
  }

  ghost function HostOf(url: string): (h: Option<string>) {
    match PartsOf(url)
    case None => None
    case Some(p) => HostIn(p.hostport)
  }

  method RtspHost(url: string) returns (h: Option<string>)
    ensures h == HostOf(url)
  {
    var parts := ReadParts(url);
    if parts.None? { return None; }
    var hostport := parts.value.hostport;
    if |hostport| == 0 { return None; }
    if hostport[0] == '[' {
      var end := IndexOf(hostport, ']');
      return if end.None? || end.value == 1 then None else Some(hostport[1..end.value]);
    }
    var i := LastIndexOf(hostport, ':');
    var host := if i.Some? then hostport[..i.value] else "";
    h := Some(if |host| > 0 then host else hostport);
  }

  function Rebound(p: Parts, newIp: string): (q: Parts) {
    if Strip(newIp) == "" then p
    else
      match PortIn(p.hostport)
      case None => p
      case Some(port) => p.(hostport := newIp + port)
  }

  ghost function Rebind(url: string, newIp: string): (r: string) {
    match PartsOf(url)
    case None => url
    case Some(p) => Render(Rebound(p, newIp))
  }

  method RebindRtspHost(url: string, newIp: string) returns (r: string)
    ensures r == Rebind(url, newIp)
  {
    var parts := ReadParts(url);
    if parts.None? || Strip(newIp) == "" { return url; }
    var p := parts.value;
    if |p.hostport| == 0 { return url; }
    var port: string;
    if p.hostport[0] == '[' {
      var end := IndexOf(p.hostport, ']');
      if end.None? { return url; }
      port := p.hostport[end.value + 1..];
    } else {
      var i := LastIndexOf(p.hostport, ':');
      port := if i.Some? then p.hostport[i.value..] else "";
    }
    r := p.scheme + "://" + (p.userinfo + (newIp + port)) + p.tail;
  }

  // -- The laws of rebinding -----------------------------------------------------

  // A host that can be written without brackets.
  ghost predicate PlainHost(a: string) {
    && Strip(a) != "" && |a| > 0 && a[0] != '[' && ':' !in a && '@' !in a && NoDelim(a)
  }

  // A port text: nothing, or ":" and something without another ":".
  ghost predicate PlainPort(p: string) {
    |p| > 0 ==> p[0] == ':' && ':' !in p[1..]
  }

  // Replacing the host keeps scheme, credentials, port and path, and the result
  // reads back as those very parts.
  lemma ReboundParts(p: Parts, a: string)
    requires ValidParts(p) && '@' !in a && NoDelim(a)
    ensures ValidParts(Rebound(p, a))
    ensures var q := Rebound(p, a); q.scheme == p.scheme && q.userinfo == p.userinfo && q.tail == p.tail
  {
    var q := Rebound(p, a);
    if q != p {
      var port := PortIn(p.hostport).value;
      var k := |p.hostport| - |port|;
      assert p.hostport == p.hostport[..k] + port;
      NoDelimConcat(p.hostport[..k], port);
      NoDelimConcat(a, port);
      forall j: nat | j < |q.scheme| ensures !SepAt(Render(q), j) {
        assert !SepAt(Render(p), j);
      }
    }
  }

  lemma HostAndPortOf(a: string, port: string)
    requires PlainHost(a) && PlainPort(port)
    ensures HostIn(a + port) == Some(a) && PortIn(a + port) == Some(port)
  {
    var hp := a + port;
    if |port| == 0 {
      assert hp == a;
    } else {
      assert hp[|a| + 1..] == port[1..];
      assert hp[..|a|] == a && hp[|a|..] == port;
    }
  }

  // The port of an unbracketed host is always plain; a bracketed one is when
  // nothing but a port follows the bracket.
  lemma UnbracketedPortPlain(hostport: string)
    requires |hostport| > 0 && !Bracketed(hostport)
    ensures PortIn(hostport).Some? && PlainPort(PortIn(hostport).value)
  {
    match LastIndexOf(hostport, ':') {
      case None =>
      case Some(i) => assert hostport[i..][1..] == hostport[i + 1..];
    }
  }

  // The URL has a host whose port, if any, is an ordinary one.
  ghost predicate Rebindable(url: string) {
    && PartsOf(url).Some?
    && PortIn(PartsOf(url).value.hostport).Some?
    && PlainPort(PortIn(PartsOf(url).value.hostport).value)
  }

  // Every URL with a host that is not in brackets is one, so the laws below need no
  // assumption about its port.
  lemma UnbracketedIsRebindable(url: string)
    requires PartsOf(url).Some? && PartsOf(url).value.hostport != "" && !Bracketed(PartsOf(url).value.hostport)
    ensures Rebindable(url)
  {
    UnbracketedPortPlain(PartsOf(url).value.hostport);
  }

  lemma RebindParts(url: string, a: string)
    requires PartsOf(url).Some? && '@' !in a && NoDelim(a)
    ensures PartsOf(Rebind(url, a)) == Some(Rebound(PartsOf(url).value, a))
  {
    ReboundParts(PartsOf(url).value, a);
    PartsOfIs(Rebind(url, a), Rebound(PartsOf(url).value, a));
  }

  // A rebound URL reads back with the new host, and scheme, credentials, port and
  // path as they were.
  lemma RebindReadsBack(url: string, a: string)
    requires Rebindable(url) && PlainHost(a)
    ensures HostOf(Rebind(url, a)) == Some(a)
    ensures PartsOf(Rebind(url, a)).Some?
    ensures var p, q := PartsOf(url).value, PartsOf(Rebind(url, a)).value;
            && q.scheme == p.scheme && q.userinfo == p.userinfo && q.tail == p.tail
            && PortIn(q.hostport) == PortIn(p.hostport)
  {
    RebindParts(url, a);
    HostAndPortOf(a, PortIn(PartsOf(url).value.hostport).value);
  }

  // Rebinding twice is rebinding once, to the second host.
  lemma RebindTwice(url: string, a: string, b: string)
    requires Rebindable(url) && PlainHost(a) && Strip(b) != ""
    ensures Rebind(Rebind(url, a), b) == Rebind(url, b)
  {
    RebindParts(url, a);
    HostAndPortOf(a, PortIn(PartsOf(url).value.hostport).value);
  }

  // A URL that cannot be read, or has no host to replace, comes back unchanged, and so
  // does any URL when the new host is blank.
  lemma NotRebindable(url: string, a: string)
    requires (PartsOf(url).Some? ==> PortIn(PartsOf(url).value.hostport).None?) || Strip(a) == ""
    ensures Rebind(url, a) == url
  {
  }

  // Rebinding to the host just read changes nothing exactly when that host was
  // written without brackets and is not empty before its only colon (":554" reads as
  // the host ":554"), or is blank, which is never written.
  lemma RebindSameExactly(url: string)
    requires HostOf(url).Some?
    ensures Rebind(url, HostOf(url).value) == url
            <==> || Strip(HostOf(url).value) == ""
                 || (!Bracketed(PartsOf(url).value.hostport)
                     && LastIndexOf(PartsOf(url).value.hostport, ':') != Some(0))
  {
    var p := PartsOf(url).value;
    var h := HostOf(url).value;
    HostportSameExactly(p.hostport, h);
    RenderSame(p, p.(hostport := h + PortIn(p.hostport).value));
  }

  lemma RenderSame(p: Parts, q: Parts)
    requires q == p.(hostport := q.hostport)
    ensures Render(p) == Render(q) <==> p.hostport == q.hostport
  {
    var a := p.scheme + "://" + p.userinfo;
    assert Render(p) == a + (p.hostport + p.tail) && Render(q) == a + (q.hostport + p.tail);
    if Render(p) == Render(q) {
      assert p.hostport + p.tail == Render(p)[|a|..] && q.hostport + p.tail == Render(q)[|a|..];
      assert |p.hostport| == |q.hostport|;
      assert p.hostport == (p.hostport + p.tail)[..|p.hostport|];
      assert q.hostport == (q.hostport + p.tail)[..|q.hostport|];
    }
  }

  lemma HostportSameExactly(hp: string, h: string)
    requires HostIn(hp) == Some(h)
    ensures PortIn(hp).Some?
    ensures h + PortIn(hp).value == hp <==> !Bracketed(hp) && LastIndexOf(hp, ':') != Some(0)
  {
    if Bracketed(hp) {
      var end := IndexOf(hp, ']').value;
      assert |h + hp[end + 1..]| < |hp|;
    } else {
      match LastIndexOf(hp, ':') {
        case None => assert h + "" == hp;
        case Some(i) =>
          if i == 0 {
            assert |hp + hp[0..]| > |hp|;
          } else {
            assert hp[..i] + hp[i..] == hp;
          }
      }
    }
  }
}
