/** The grammar is unambiguous: a printed form has one reading, whatever its length and port. */
module UrlUnambiguous {
  import opened Wrappers
  import opened UrlChars
  import opened UrlParser
  import opened UrlGrammar
  import opened UrlScanProofs
  import opened UrlHostProofs
  import opened UrlTheorems
  import opened UrlAcceptance

  /** How many characters at the start of `w` are of one kind. */
  function Run(p: char -> bool, w: string): nat {
    if w == "" || !p(w[0]) then 0 else 1 + Run(p, w[1..])
  }

  lemma {:induction false} RunIs(p: char -> bool, x: string, rest: string)
    requires All(p, x) && (rest != "" ==> !p(rest[0]))
    ensures Run(p, x + rest) == |x|
    decreases |x|
  {
    if x == "" {
      assert x + rest == rest;
    } else {
      assert (x + rest)[0] == x[0] && (x + rest)[1..] == x[1..] + rest;
      RunIs(p, x[1..], rest);
    }
  }

  /** A text can be cut in only one way where one kind of character ends. */
  lemma CutOnce(p: char -> bool, x: string, rest: string, y: string, rest': string)
    requires x + rest == y + rest' && All(p, x) && All(p, y)
    requires (rest != "" ==> !p(rest[0])) && (rest' != "" ==> !p(rest'[0]))
    ensures x == y && rest == rest'
  {
    hide Run;
    RunIs(p, x, rest);
    RunIs(p, y, rest');
    SameCut(x, rest, y, rest');
  }

  // ----- path, query and fragment

  function FragmentText(f: Option<FragmentPart>): string {
    if f.Some? then Hashes(f.value.hashes) + f.value.text else ""
  }

  lemma PrintedFragment(f: Option<FragmentPart>)
    ensures Flatten(FragmentPieces(f)) == FragmentText(f)
  {
    hide Flatten;
    NoPieces(0);
    if f.Some? {
      DelimiterAndField(Hashes(f.value.hashes), UfFragment, f.value.text, 0);
    }
  }

  lemma OneFragment(f: Option<FragmentPart>, g: Option<FragmentPart>)
    requires (f.Some? ==> ValidFragment(f.value)) && (g.Some? ==> ValidFragment(g.value))
    requires FragmentText(f) == FragmentText(g)
    ensures f.Some? == g.Some? && (f.Some? ==> f.value.text == g.value.text)
  {
    if f.Some? && g.Some? {
      CutOnce(c => c == '#', Hashes(f.value.hashes), f.value.text, Hashes(g.value.hashes), g.value.text);
    }
  }

  /** A tail has a query exactly when it starts with '?'. */
  lemma TailKind(t: Tail)
    requires ValidTail(t)
    ensures var w, f := Flatten(TailPieces(t)), FragmentText(t.fragment);
            && (t.query.Some? <==> w != "" && w[0] == '?')
            && (if t.query.Some? then w != "" && w[1..] == t.query.value + f else w == f)
            && (f != "" ==> !IsQueryChar(f[0]))
  {
    hide Flatten, TailPieces, FragmentPieces;
    PrintedTail(t);
    PrintedFragment(t.fragment);
    FragmentStart(t.fragment);
    var f := FragmentText(t.fragment);
    if t.query.Some? {
      assert Flatten(TailPieces(t)) == "?" + (t.query.value + f);
    } else {
      assert "" + f == f;
    }
  }

  lemma OneTail(t: Tail, v: Tail)
    requires ValidTail(t) && ValidTail(v) && Flatten(TailPieces(t)) == Flatten(TailPieces(v))
    ensures t.query == v.query && t.fragment.Some? == v.fragment.Some?
    ensures t.fragment.Some? ==> t.fragment.value.text == v.fragment.value.text
  {
    hide Flatten, TailPieces, FragmentText, IsQueryChar, ValidFragment;
    TailKind(t);
    TailKind(v);
    if t.query.Some? {
      CutOnce(IsQueryChar, t.query.value, FragmentText(t.fragment), v.query.value, FragmentText(v.fragment));
    }
    OneFragment(t.fragment, v.fragment);
  }

  lemma FragmentStart(f: Option<FragmentPart>)
    requires f.Some? ==> ValidFragment(f.value)
    ensures var w := FragmentText(f); w != "" ==> w[0] == '#'
  {
  }

  lemma TailStart(t: Tail)
    requires ValidTail(t)
    ensures var w := Flatten(TailPieces(t)); w != "" ==> w[0] == '?' || w[0] == '#'
  {
    hide Flatten, TailPieces, FragmentPieces, QueryPieces;
    PrintedTail(t);
    PrintedFragment(t.fragment);
  }

  lemma OnePath(path: string, t: Tail, path': string, v: Tail)
    requires All(IsUrlChar, path) && All(IsUrlChar, path') && ValidTail(t) && ValidTail(v)
    requires Flatten(PathPieces(path, t)) == Flatten(PathPieces(path', v))
    ensures path == path' && t.query == v.query && t.fragment.Some? == v.fragment.Some?
    ensures t.fragment.Some? ==> t.fragment.value.text == v.fragment.value.text
  {
    hide Flatten, TailPieces, PathPieces, ValidTail;
    PrintedPath(path, t);
    PrintedPath(path', v);
    TailStart(t);
    TailStart(v);
    CutOnce(IsUrlChar, path, Flatten(TailPieces(t)), path', Flatten(TailPieces(v)));
    OneTail(t, v);
  }

  // ----- the authority

  function PortText(port: Option<string>): string { if port.Some? then ":" + port.value else "" }

  lemma PrintedPort(port: Option<string>)
    ensures Flatten(PortPieces(port)) == PortText(port)
  {
    hide Flatten;
    NoPieces(0);
    if port.Some? {
      DelimiterAndField(":", UfPort, port.value, 0);
    }
  }

  lemma OnePort(p: Option<string>, q: Option<string>)
    requires PortText(p) == PortText(q)
    ensures p == q
  {
    if p.Some? && q.Some? {
      assert p.value == PortText(p)[1..] == q.value;
    }
  }

  predicate NotClosing(c: char) { c != ']' }

  lemma InsideBrackets(h: HostName)
    requires h.V6Literal? && ValidHost(h)
    ensures All(NotClosing, h.address + ZoneText(h.zone))
  {
  }

  lemma OneLiteral(x: string, p: Option<string>, y: string, q: Option<string>)
    requires All(NotClosing, x) && All(NotClosing, y)
    requires "[" + x + "]" + PortText(p) == "[" + y + "]" + PortText(q)
    ensures x == y && PortText(p) == PortText(q)
  {
    hide PortText;
    var w := "[" + x + "]" + PortText(p);
    var r, r' := "]" + PortText(p), "]" + PortText(q);
    assert w[1..] == x + r && w[1..] == y + r';
    CutOnce(NotClosing, x, r, y, r');
    assert r[1..] == PortText(p) && r'[1..] == PortText(q);
  }

  lemma HostStarts(h: HostName, p: Option<string>)
    requires ValidHost(h)
    ensures var w := Flatten(HostPieces(h)) + PortText(p); w != "" && (h.RegName? <==> w[0] != '[')
  {
    hide Flatten, HostPieces, PortText;
    PrintedHost(h, 0);
  }

  lemma OneHost(h: HostName, p: Option<string>, k: HostName, q: Option<string>)
    requires ValidHost(h) && ValidHost(k)
    requires Flatten(HostPieces(h)) + PortText(p) == Flatten(HostPieces(k)) + PortText(q)
    ensures h.RegName? == k.RegName? && p == q
    ensures if h.RegName? then h.name == k.name else h.address + ZoneText(h.zone) == k.address + ZoneText(k.zone)
  {
    HostStarts(h, p);
    HostStarts(k, q);
    PrintedHost(h, 0);
    PrintedHost(k, 0);
    PortStarts(p);
    PortStarts(q);
    hide Flatten, HostPieces, PortText, Place, IsHostChar;
    if h.RegName? {
      CutOnce(IsHostChar, h.name, PortText(p), k.name, PortText(q));
    } else {
      InsideBrackets(h);
      InsideBrackets(k);
      hide ZoneText;
      OneLiteral(h.address + ZoneText(h.zone), p, k.address + ZoneText(k.zone), q);
    }
    OnePort(p, q);
  }

  lemma PortStarts(p: Option<string>)
    ensures PortText(p) != "" ==> !IsHostChar(PortText(p)[0])
  {
  }

  lemma AtEndsUserinfo()
    ensures !IsUserinfoChar('@')
  {
  }

  lemma OneAuthority(a: Authority, b: Authority, f: Field)
    requires ValidAuthority(a) && ValidAuthority(b) && Flatten(AuthorityPieces(a)) == Flatten(AuthorityPieces(b))
    ensures AuthorityComponent(a, f) == AuthorityComponent(b, f) && a.port == b.port
  {
    AtEndsUserinfo();
    hide Flatten, AuthorityPieces, HostPieces, PortPieces, ValidHost, PortText, InServer, StateRun, IsUserinfoChar,
         IsServerChar, ZoneText;
    PrintedAuthority(a);
    PrintedAuthority(b);
    PrintedPort(a.port);
    PrintedPort(b.port);
    AuthorityIsRaw(a);
    AuthorityIsRaw(b);
    var x := Flatten(HostPieces(a.host)) + PortText(a.port);
    var y := Flatten(HostPieces(b.host)) + PortText(b.port);
    var w := Flatten(AuthorityPieces(a));
    if a.userinfo.Some? {
      assert w == a.userinfo.value + ("@" + x) == b.userinfo.value + ("@" + y);
      CutOnce(IsUserinfoChar, a.userinfo.value, "@" + x, b.userinfo.value, "@" + y);
      assert ("@" + x)[1..] == x && ("@" + y)[1..] == y;
    } else {
      assert w == x == y;
    }
    OneHost(a.host, a.port, b.host, b.port);
  }

  // ----- the whole

  function SchemeText(scheme: Option<string>): string { if scheme.Some? then scheme.value + "://" else "" }

  /** A printed form with an authority, and where its head ends. */
  lemma HeadOf(u: Url, isConnect: bool)
    requires Valid(u, isConnect) && u.authority.Some?
    ensures var a := Flatten(AuthorityPieces(u.authority.value));
            && Print(u) == SchemeText(u.scheme) + (a + Flatten(PathPieces(u.path, u.tail)))
            && HeadEnd(Print(u), isConnect) == |SchemeText(u.scheme)| + |a|
  {
    hide Flatten, AuthorityPieces, PathPieces, SchemePieces, RawPieces, Pieces, Print, ValidAuthority,
         ValidAfterAuthority, All, HeadEnd, InServer, StateRun;
    var a := Flatten(AuthorityPieces(u.authority.value));
    TwoLayouts(u);
    AuthorityIsRaw(u.authority.value);
    PrintedRaw(u.scheme, a, u.path, u.tail);
    HeadEndIs(u.scheme, a, u.path, u.tail);
    var r := Flatten(PathPieces(u.path, u.tail));
    assert SchemeText(u.scheme) + a + r == SchemeText(u.scheme) + (a + r);
  }

  /** The parts of a printed form with an authority are determined by it. */
  lemma OneHead(u: Url, v: Url, isConnect: bool)
    requires Valid(u, isConnect) && Valid(v, isConnect) && Print(u) == Print(v)
    requires u.authority.Some? && v.authority.Some?
    ensures u.scheme == v.scheme
    ensures Flatten(AuthorityPieces(u.authority.value)) == Flatten(AuthorityPieces(v.authority.value))
    ensures Flatten(PathPieces(u.path, u.tail)) == Flatten(PathPieces(v.path, v.tail))
  {
    hide Flatten, AuthorityPieces, PathPieces, Print, ValidAuthority, ValidAfterAuthority, All, HeadEnd;
    var a, b := Flatten(AuthorityPieces(u.authority.value)), Flatten(AuthorityPieces(v.authority.value));
    var r, r' := Flatten(PathPieces(u.path, u.tail)), Flatten(PathPieces(v.path, v.tail));
    HeadOf(u, isConnect);
    HeadOf(v, isConnect);
    if isConnect {
      assert "" + (a + r) == a + r && "" + (b + r') == b + r';
    } else {
      SameScheme(u.scheme.value, a + r, v.scheme.value, b + r');
    }
    SameCut(a, r, b, r');
  }

  lemma SameCut(a: string, r: string, b: string, r': string)
    requires a + r == b + r' && |a| == |b|
    ensures a == b && r == r'
  {
    var w := a + r;
    assert a == w[..|a|] && b == w[..|b|] && r == w[|a|..] && r' == w[|b|..];
  }

  lemma SameScheme(s: string, rest: string, s': string, rest': string)
    requires All(IsAlpha, s) && All(IsAlpha, s') && s + "://" + rest == s' + "://" + rest'
    ensures s == s' && rest == rest'
  {
    assert s + "://" + rest == s + ("://" + rest) && s' + "://" + rest' == s' + ("://" + rest');
    CutOnce(IsAlpha, s, "://" + rest, s', "://" + rest');
    assert ("://" + rest)[3..] == rest && ("://" + rest')[3..] == rest';
  }

  lemma FirstOfPrint(u: Url)
    requires ValidUrl(u)
    ensures Print(u) != ""
    ensures u.authority.Some? <==> IsAlpha(Print(u)[0])
    ensures u.authority.None? ==> Print(u) == Flatten(PathPieces(u.path, u.tail))
  {
    hide Flatten, AuthorityPieces, PathPieces, SchemePieces, RawPieces, Pieces, ValidAuthority, ValidAfterAuthority;
    if u.authority.Some? {
      TwoLayouts(u);
      PrintedRaw(u.scheme, Flatten(AuthorityPieces(u.authority.value)), u.path, u.tail);
      assert Print(u)[0] == u.scheme.value[0];
    } else {
      PiecesAre(u);
      NoScheme();
      PrintedPath(u.path, u.tail);
      assert Pieces(u) == PathPieces(u.path, u.tail);
      assert Print(u)[0] == u.path[0];
    }
  }

  /** Two trees with the same printed form have the same values, and the same port number. */
  lemma Unambiguous(u: Url, v: Url, isConnect: bool, f: Field)
    requires Valid(u, isConnect) && Valid(v, isConnect) && Print(u) == Print(v)
    ensures Component(u, f) == Component(v, f) && PortNumber(u) == PortNumber(v)
  {
    hide Flatten, AuthorityPieces, PathPieces, Print, ValidAuthority, All, ValidTail, IsAlpha, Decimal;
    if !isConnect {
      FirstOfPrint(u);
      FirstOfPrint(v);
    }
    if u.authority.Some? {
      OneHead(u, v, isConnect);
      OneAuthority(u.authority.value, v.authority.value, f);
    }
    OnePath(u.path, u.tail, v.path, v.tail);
  }
}
