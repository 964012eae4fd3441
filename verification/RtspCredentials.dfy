// Putting the operator's credentials back into a masked stream URL
// (backend/wavr/api_space.py, rtsp_url_with_credentials).
module RtspCredentials {
  import opened Prelude
  import opened Text
  import opened CameraUrl
  import opened PercentEncoding

  // The scheme text a masked URL starts with, as written there.
  function RtspPrefix(masked: string): (r: Option<nat>)
    ensures r.Some? ==> r.value <= |masked|
  {
    if |masked| >= 7 && Lower(masked[..7]) == "rtsp://" then Some(7)
    else if |masked| >= 8 && Lower(masked[..8]) == "rtsps://" then Some(8)
    else None
  }

  // What is left of the rest of the URL once the userinfo is dropped: the text
  // after its last "@".
  function AfterLastAt(rest: string): (t: string)
    ensures '@' !in t && |t| <= |rest| && t == rest[|rest| - |t|..]
  {
    match LastIndexOf(rest, '@')
    case None => rest
    case Some(i) => rest[i + 1..]
  }

  predicate Plausible(tail: string) {
    tail != "" && ('/' in tail || ':' in tail)
  }

  function Userinfo(username: Bytes, password: Bytes): string {
    if username == [] then "" else Quote(username) + ":" + Quote(password) + "@"
  }

  function WithCredentials(masked: string, username: Bytes, password: Bytes): (r: string) {
    match RtspPrefix(masked)
    case None => ""
    case Some(n) => Rebuilt(masked[..n], masked[n..], username, password)
  }

  function Rebuilt(prefix: string, rest: string, username: Bytes, password: Bytes): (r: string) {
    var tail := AfterLastAt(rest);
    if !Plausible(tail) then "" else prefix + Userinfo(username, password) + tail
  }

  // -- What it is for ---------------------------------------------------------------

  // Text that is that scheme in any case, and then the rest.
  ghost predicate Begins(masked: string, scheme: string, rest: string) {
    exists w :: masked == w + rest && Lower(w) == scheme
  }

  lemma PrefixExactly(masked: string)
    ensures RtspPrefix(masked) == Some(7) <==> exists rest :: Begins(masked, "rtsp://", rest)
    ensures RtspPrefix(masked) == Some(8) <==> exists rest :: Begins(masked, "rtsps://", rest)
    ensures RtspPrefix(masked).Some? ==> RtspPrefix(masked).value in {7, 8}
  {
    if |masked| >= 7 && Lower(masked[..7]) == "rtsp://" {
      assert masked == masked[..7] + masked[7..];
      assert Begins(masked, "rtsp://", masked[7..]);
    }
    if |masked| >= 8 && Lower(masked[..8]) == "rtsps://" {
      assert masked == masked[..8] + masked[8..];
      assert Begins(masked, "rtsps://", masked[8..]);
    }
    if rest :| Begins(masked, "rtsp://", rest) { BeginsAt(masked, "rtsp://", rest); }
    if rest :| Begins(masked, "rtsps://", rest) {
      BeginsAt(masked, "rtsps://", rest);
      if |masked| >= 7 && Lower(masked[..7]) == "rtsp://" { OneScheme(masked); }
    }
  }

  lemma BeginsAt(masked: string, scheme: string, rest: string)
    requires Begins(masked, scheme, rest)
    ensures |masked| >= |scheme| && Lower(masked[..|scheme|]) == scheme
  {
    var w :| masked == w + rest && Lower(w) == scheme;
    LowerAt(w);
    assert masked[..|w|] == w;
  }

  // The fifth letter tells the two schemes apart.
  lemma OneScheme(masked: string)
    requires |masked| >= 8 && Lower(masked[..7]) == "rtsp://"
    ensures Lower(masked[..8]) != "rtsps://"
  {
    LowerAt(masked[..7]);
    LowerAt(masked[..8]);
    assert Lower(masked[..7])[4] == ':' && masked[..8][4] == masked[..7][4];
  }

  // Without a username no userinfo is written, and without either scheme nothing at all.
  lemma WithoutUsername(masked: string, password: Bytes)
    ensures RtspPrefix(masked).None? ==> WithCredentials(masked, [], password) == ""
    ensures RtspPrefix(masked).Some? ==>
              var n := RtspPrefix(masked).value;
              var tail := AfterLastAt(masked[n..]);
              WithCredentials(masked, [], password) ==
                if '/' in tail || ':' in tail then masked[..n] + tail else ""
  {
  }

  // -- The userinfo it writes ------------------------------------------------------

  lemma QuoteHasNo(bs: Bytes, c: char)
    requires !Unreserved(c) && c != '%'
    ensures c !in Quote(bs)
  {
    QuoteIsSafe(bs);
  }

  lemma QuoteNoDelim(bs: Bytes)
    ensures NoDelim(Quote(bs))
  {
    QuoteIsSafe(bs);
    forall i | 0 <= i < |Quote(bs)| ensures !IsDelim(Quote(bs)[i]) { assert Quote(bs)[i] in Quote(bs); }
  }

  lemma UserinfoShape(username: Bytes, password: Bytes)
    ensures var u := Userinfo(username, password);
            NoDelim(u) && (|u| > 0 ==> u[|u| - 1] == '@')
  {
    QuoteNoDelim(username);
    QuoteNoDelim(password);
    var q, p := Quote(username), Quote(password);
    NoDelimConcat(q, ":");
    NoDelimConcat(q + ":", p);
    NoDelimConcat(q + ":" + p, "@");
  }

  // Cutting the userinfo at its first ":" and percent-decoding the halves gives
  // back exactly the credentials, whatever bytes they are.
  lemma CredentialsRecovered(username: Bytes, password: Bytes)
    requires username != []
    ensures var u := Userinfo(username, password);
            && IndexOf(u, ':').Some?
            && Unquote(u[..IndexOf(u, ':').value]) == Some(username)
            && |u| > IndexOf(u, ':').value + 1
            && Unquote(u[IndexOf(u, ':').value + 1..|u| - 1]) == Some(password)
  {
    var u := Userinfo(username, password);
    var q, p := Quote(username), Quote(password);
    QuoteHasNo(username, ':');
    UnquoteQuote(username);
    UnquoteQuote(password);
    assert u[|q|] == ':' && u[..|q|] == q;
    assert u[|q|] in u;
    var i := IndexOf(u, ':').value;
    forall j | 0 <= j < i ensures u[j] != ':' { assert u[j] == u[..i][j]; }
    forall j | 0 <= j < |q| ensures u[j] != ':' { assert u[j] == q[j]; }
    assert i == |q|;
    assert u[|q| + 1..|u| - 1] == p;
  }

  // -- The URL it writes -------------------------------------------------------------

  // A masked URL: an rtsp or rtsps scheme in any case, read as the camera URL
  // parts p. The scheme has no colon, so the first "://" is the one after it.
  lemma SchemeIsPrefix(masked: string, p: Parts)
    requires RtspPrefix(masked).Some? && IsParts(masked, p)
    ensures |p.scheme| + 3 == RtspPrefix(masked).value
    ensures masked[..RtspPrefix(masked).value] == p.scheme + "://"
    ensures masked[RtspPrefix(masked).value..] == p.userinfo + (p.hostport + p.tail)
  {
    var n := RtspPrefix(masked).value;
    PrefixColon(masked, n);
    assert SepAt(masked, |p.scheme|) by {
      assert Render(p)[|p.scheme|] == ':' && Render(p)[|p.scheme| + 1] == '/' && Render(p)[|p.scheme| + 2] == '/';
    }
    assert |p.scheme| == n - 3;
    assert masked == (p.scheme + "://") + (p.userinfo + (p.hostport + p.tail));
  }

  lemma PrefixColon(masked: string, n: nat)
    requires RtspPrefix(masked) == Some(n)
    ensures 3 <= n <= |masked| && SepAt(masked, n - 3) && forall j: nat | j < n - 3 :: !SepAt(masked, j)
  {
    var front := masked[..n];
    LowerAt(front);
    var low := if n == 7 then "rtsp://" else "rtsps://";
    assert Lower(front) == low;
    forall j | 0 <= j < n ensures LowerChar(masked[j]) == low[j] { assert front[j] == masked[j]; }
    assert low[n - 3] == ':' && low[n - 2] == '/' && low[n - 1] == '/';
    forall j: nat | j < n - 3 ensures !SepAt(masked, j) { assert low[j] != ':'; }
  }

  lemma AfterLastAtOf(a: string, t: string)
    requires '@' !in t && (|a| > 0 ==> a[|a| - 1] == '@')
    ensures AfterLastAt(a + t) == t
  {
    if |a| > 0 {
      assert (a + t)[|a|..] == t;
    } else {
      assert a + t == t;
    }
  }

  // The same parts under new credentials.
  function Recredentialed(p: Parts, username: Bytes, password: Bytes): Parts {
    p.(userinfo := Userinfo(username, password))
  }

  lemma RecredentialedValid(p: Parts, username: Bytes, password: Bytes)
    requires ValidParts(p)
    ensures ValidParts(Recredentialed(p, username, password))
  {
    var q := Recredentialed(p, username, password);
    UserinfoShape(username, password);
    forall j: nat | j < |q.scheme| ensures !SepAt(Render(q), j) {
      assert !SepAt(Render(p), j);
    }
  }

  lemma RebuiltText(p: Parts, username: Bytes, password: Bytes)
    requires '@' !in p.hostport && '@' !in p.tail && Plausible(p.hostport + p.tail)
    requires |p.userinfo| > 0 ==> p.userinfo[|p.userinfo| - 1] == '@'
    ensures Rebuilt(p.scheme + "://", p.userinfo + (p.hostport + p.tail), username, password)
         == Render(Recredentialed(p, username, password))
  {
    AfterLastAtOf(p.userinfo, p.hostport + p.tail);
  }

  // With no "@" after the authority, the rebuilt URL has the masked one's scheme,
  // host, port and path, and exactly the new userinfo.
  lemma KeepsHostAndTail(masked: string, username: Bytes, password: Bytes, p: Parts)
    requires RtspPrefix(masked).Some? && IsParts(masked, p) && '@' !in p.tail
    requires Plausible(p.hostport + p.tail)
    ensures IsParts(WithCredentials(masked, username, password), Recredentialed(p, username, password))
  {
    SchemeIsPrefix(masked, p);
    RebuiltText(p, username, password);
    RecredentialedValid(p, username, password);
  }

  // So what reads the host reads the same one from both.
  lemma SameHostRead(url: string, rebuilt: string, p: Parts, username: Bytes, password: Bytes)
    requires IsParts(url, p) && IsParts(rebuilt, Recredentialed(p, username, password))
    ensures HostOf(rebuilt) == HostOf(url)
  {
    PartsOfIs(url, p);
    PartsOfIs(rebuilt, Recredentialed(p, username, password));
  }

  // It keeps them exactly when there is no "@" in the path, which is taken for the end
  // of the userinfo, the host with everything up to it being lost; and the host and
  // path hold a "/" or a ":", without which the result is empty.
  lemma KeepsExactly(masked: string, username: Bytes, password: Bytes, p: Parts)
    requires RtspPrefix(masked).Some? && IsParts(masked, p)
    ensures IsParts(WithCredentials(masked, username, password), Recredentialed(p, username, password))
            <==> '@' !in p.tail && ('/' in p.hostport + p.tail || ':' in p.hostport + p.tail)
  {
    if '@' in p.tail {
      TailLost(masked, username, password, p);
    } else if !Plausible(p.hostport + p.tail) {
      NothingWritten(masked, username, password, p);
    } else {
      KeepsHostAndTail(masked, username, password, p);
    }
  }

  lemma NothingWritten(masked: string, username: Bytes, password: Bytes, p: Parts)
    requires RtspPrefix(masked).Some? && IsParts(masked, p) && '@' !in p.tail && !Plausible(p.hostport + p.tail)
    ensures WithCredentials(masked, username, password) == ""
  {
    SchemeIsPrefix(masked, p);
    AfterLastAtOf(p.userinfo, p.hostport + p.tail);
  }

  lemma TailLost(masked: string, username: Bytes, password: Bytes, p: Parts)
    requires RtspPrefix(masked).Some? && IsParts(masked, p) && '@' in p.tail
    ensures WithCredentials(masked, username, password) != Render(Recredentialed(p, username, password))
  {
    SchemeIsPrefix(masked, p);
    LongTailShortens(p.scheme + "://", p, username, password);
  }

  // With an "@" at k, no more than what follows it is kept.
  lemma AfterAt(rest: string, k: nat)
    requires k < |rest| && rest[k] == '@'
    ensures |AfterLastAt(rest)| < |rest| - k
  {
    var t := AfterLastAt(rest);
    forall i | |rest| - |t| <= i < |rest| ensures rest[i] != '@' { assert rest[i] == t[i - (|rest| - |t|)]; }
  }

  lemma LongTailShortens(prefix: string, p: Parts, username: Bytes, password: Bytes)
    requires '@' in p.tail && prefix == p.scheme + "://"
    ensures |Rebuilt(prefix, p.userinfo + (p.hostport + p.tail), username, password)|
            < |Render(Recredentialed(p, username, password))|
  {
    var rest := p.userinfo + (p.hostport + p.tail);
    var k :| 0 <= k < |p.tail| && p.tail[k] == '@';
    AfterAt(rest, |p.userinfo| + |p.hostport| + k);
  }
}
