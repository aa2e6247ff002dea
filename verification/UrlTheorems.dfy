/** Parsing the printed form of a tree gives back every value of the tree (`RoundTrip`).  The record's
    offsets and lengths have 16 bits: only the scheme and the authority have to end within that
    range, and the lemma says exactly when the record still points at the values. */
module UrlTheorems {
  import opened Wrappers
  import opened UrlChars
  import opened UrlParser
  import opened UrlGrammar
  import opened UrlScanProofs
  import opened UrlHostProofs
  import opened UrlTiling

  // ----- the port loop

  lemma DecimalExtends(digits: string, c: char)
    ensures Decimal(digits + [c]) == Decimal(digits) * 10 + (c as int - '0' as int)
  {
    assert (digits + [c])[..|digits|] == digits;
  }

  lemma {:induction false} DecimalGrows(a: string, b: string)
    requires All(IsNum, a) && All(IsNum, b)
    ensures 0 <= Decimal(a) <= Decimal(a + b)
    decreases |a| + |b|
  {
    if b != "" {
      var front, last := b[..|b| - 1], b[|b| - 1];
      assert a + b == (a + front) + [last];
      DecimalExtends(a + front, last);
      DecimalGrows(a, front);
    } else {
      assert a + b == a;
      if a != "" {
        DecimalGrows(a[..|a| - 1], "");
        assert a[..|a| - 1] + "" == a[..|a| - 1];
      }
    }
  }

  /** The early exit rejects exactly the ports whose whole value is out of range. */
  lemma {:induction false} PortLoopIsDecimal(done: string, rest: string)
    requires All(IsNum, done) && All(IsNum, rest) && Decimal(done) <= 0xffff
    ensures PortLoop(Decimal(done), rest)
         == if Decimal(done + rest) <= 0xffff then Some(Decimal(done + rest)) else None
    decreases |rest|
  {
    if rest == "" {
      assert done + rest == done;
    } else {
      var c, later := rest[0], rest[1..];
      assert done + rest == done + [c] + later;
      DecimalExtends(done, c);
      DecimalGrows(done, "");
      assert done + "" == done;
      DecimalGrows(done + [c], later);
      if Decimal(done + [c]) <= 0xffff {
        PortLoopIsDecimal(done + [c], later);
      }
    }
  }

  // ----- a printed authority passes the first loop as one raw field

  predicate IsPlain(c: char) { IsServerChar(c) && c != '@' }

  lemma PlainHost(host: HostName)
    requires ValidHost(host)
    ensures All(IsPlain, Flatten(HostPieces(host))) && Flatten(HostPieces(host)) != ""
  {
    hide Flatten, HostPieces;
    PrintedHost(host, 0);
    match host {
      case RegName(name) =>
      case V6Literal(address, zone) =>
        assert All(IsPlain, address) && All(IsPlain, ZoneText(zone));
    }
  }

  lemma PlainPort(port: Option<string>)
    requires port.Some? ==> All(IsNum, port.value)
    ensures All(IsPlain, Flatten(PortPieces(port)))
  {
    hide Flatten;
    NoPieces(0);
    if port.Some? {
      DelimiterAndField(":", UfPort, port.value, 0);
    }
  }

  lemma {:induction false} PlainStaysInServer(s: State, w: string)
    requires InServer(s) && All(IsPlain, w)
    ensures InServer(StateRun(s, w)) && (w != "" ==> StateRun(s, w).Server?)
    decreases |w|
  {
    if w != "" {
      PlainStaysInServer(NextState(s, w[0]), w[1..]);
    }
  }

  lemma {:induction false} StateConcat(s: State, a: string, b: string)
    ensures StateRun(s, a + b) == StateRun(StateRun(s, a), b)
    decreases |a|
  {
    if a == "" {
      assert a + b == b;
    } else {
      assert (a + b)[1..] == a[1..] + b;
      StateConcat(NextState(s, a[0]), a[1..], b);
    }
  }

  /** A printed authority is a raw authority, and it holds '@' exactly when it has a userinfo. */
  lemma AuthorityIsRaw(a: Authority)
    requires ValidAuthority(a)
    ensures var w := Flatten(AuthorityPieces(a));
            && w != "" && All(IsServerChar, w) && InServer(StateRun(ServerStart, w))
            && ('@' in w <==> a.userinfo.Some?)
  {
    hide *;
    PlainParts(a);
    PrintedAuthority(a);
    var rest := Flatten(HostPieces(a.host)) + Flatten(PortPieces(a.port));
    var w := Flatten(AuthorityPieces(a));
    if a.userinfo.Some? {
      assert w == a.userinfo.value + "@" + rest;
      AroundAt(a.userinfo.value, rest);
    } else {
      assert w == rest;
      PlainIsServer(rest);
      PlainStaysInServer(ServerStart, rest);
    }
  }

  lemma PlainParts(a: Authority)
    requires ValidAuthority(a)
    ensures InServer(ServerStart)
    ensures var rest := Flatten(HostPieces(a.host)) + Flatten(PortPieces(a.port));
            rest != "" && All(IsPlain, rest)
    ensures a.userinfo.Some? ==> All(IsPlain, a.userinfo.value)
  {
    hide Flatten, HostPieces, PortPieces, ValidHost;
    PlainHost(a.host);
    PlainPort(a.port);
  }

  lemma PlainIsServer(w: string)
    requires All(IsPlain, w)
    ensures All(IsServerChar, w) && '@' !in w
  {
  }

  /** Plain text on both sides of one '@' passes the first loop. */
  lemma AroundAt(left: string, right: string)
    requires All(IsPlain, left) && All(IsPlain, right)
    ensures var w := left + "@" + right;
            '@' in w && All(IsServerChar, w) && InServer(StateRun(ServerStart, w))
  {
    hide StateRun, IsPlain, NextState;
    PlainIsServer(left);
    PlainIsServer(right);
    PlainStaysInServer(ServerStart, left);
    StateConcat(ServerStart, left, "@");
    StateConcat(ServerStart, left + "@", right);
    LeftState(left);
    AtStep(StateRun(ServerStart, left));
    PlainStaysInServer(ServerWithAt, right);
    assert (left + "@" + right)[|left|] == '@';
  }

  lemma AtStep(s: State)
    requires s.ServerStart? || s.Server?
    ensures StateRun(s, "@") == ServerWithAt
  {
    assert "@"[1..] == "";
  }

  lemma LeftState(left: string)
    requires All(IsPlain, left)
    ensures StateRun(ServerStart, left).ServerStart? || StateRun(ServerStart, left).Server?
  {
    PlainStaysInServer(ServerStart, left);
  }

  // ----- the values of a tree

  /** The value of a field in the tree, "" when it is absent. */
  function Component(u: Url, f: Field): string {
    match f
    case UfSchema => if u.scheme.Some? then u.scheme.value else ""
    case UfPath => u.path
    case UfQuery => if u.tail.query.Some? then u.tail.query.value else ""
    case UfFragment => if u.tail.fragment.Some? then u.tail.fragment.value.text else ""
    case _ => if u.authority.Some? then AuthorityComponent(u.authority.value, f) else ""
  }

  function AuthorityComponent(a: Authority, f: Field): string {
    match f
    case UfUserinfo => if a.userinfo.Some? then a.userinfo.value else ""
    case UfHost => (match a.host
                    case RegName(name) => name
                    case V6Literal(address, zone) => address + ZoneText(zone))
    case UfPort => if a.port.Some? then a.port.value else ""
    case _ => ""
  }

  lemma PairValue(p: Piece, q: Piece, f: Field)
    ensures Value([p, q], f) == if p.field == Some(f) && p.text != "" then p.text else Value([q], f)
    ensures Value([p], f) == if p.field == Some(f) then p.text else ""
    ensures Value([q], f) == if q.field == Some(f) then q.text else ""
    ensures Value([], f) == ""
  {
    assert [p, q][1..] == [q] && [q][1..] == [] && [p][1..] == [];
  }

  lemma HostValue(host: HostName, f: Field)
    ensures Value(HostPieces(host), f) == if f != UfHost then "" else
              match host case RegName(name) => name case V6Literal(address, zone) => address + ZoneText(zone)
  {
    match host {
      case RegName(name) => PairValue(Piece(Some(UfHost), name), Piece(None, ""), f);
      case V6Literal(address, zone) =>
        var ps := HostPieces(host);
        assert ps[1..] == [ps[1], ps[2]];
        PairValue(ps[1], ps[2], f);
    }
  }

  lemma AuthorityValue(a: Authority, f: Field)
    requires ValidAuthority(a)
    ensures Value(AuthorityPieces(a), f) == AuthorityComponent(a, f)
  {
    hide Value, HostPieces, ValidHost, All;
    var us, hs, ps := UserinfoPieces(a.userinfo), HostPieces(a.host), PortPieces(a.port);
    ValueConcat(us, hs, f);
    ValueConcat(us + hs, ps, f);
    HostValue(a.host, f);
    PairValue(Piece(Some(UfUserinfo), if a.userinfo.Some? then a.userinfo.value else ""), Piece(None, "@"), f);
    PairValue(Piece(None, ":"), Piece(Some(UfPort), if a.port.Some? then a.port.value else ""), f);
  }

  lemma TailValue(t: Tail, f: Field)
    ensures Value(TailPieces(t), f)
         == if f == UfQuery && t.query.Some? then t.query.value
            else if f == UfFragment && t.fragment.Some? then t.fragment.value.text else ""
  {
    hide Value, Hashes;
    ValueConcat(QueryPieces(t.query), FragmentPieces(t.fragment), f);
    PairValue(Piece(None, "?"), Piece(Some(UfQuery), if t.query.Some? then t.query.value else ""), f);
    if t.fragment.Some? {
      PairValue(Piece(None, Hashes(t.fragment.value.hashes)), Piece(Some(UfFragment), t.fragment.value.text), f);
    }
  }

  lemma UrlValue(u: Url, f: Field)
    requires u.authority.Some? ==> ValidAuthority(u.authority.value)
    ensures Value(Pieces(u), f) == Component(u, f)
  {
    hide Value, AuthorityPieces, TailPieces, ValidAuthority;
    var sps := SchemePieces(u.scheme);
    var aps := if u.authority.Some? then AuthorityPieces(u.authority.value) else [];
    var path, tps := [Piece(Some(UfPath), u.path)], TailPieces(u.tail);
    ValueConcat(sps, aps, f);
    ValueConcat(sps + aps, path + tps, f);
    ValueConcat(path, tps, f);
    PairValue(Piece(Some(UfSchema), if u.scheme.Some? then u.scheme.value else ""), Piece(None, "://"), f);
    PairValue(path[0], Piece(None, ""), f);
    TailValue(u.tail, f);
    if u.authority.Some? {
      AuthorityValue(u.authority.value, f);
    }
  }

  // ----- the parse of a printed tree

  /** The record holds exactly the placed pieces. */
  ghost predicate Records(info: UrlInfo, placed: map<Field, Slice>) {
    && info.fields == placed.Keys
    && forall f <- placed.Keys :: f in info.data && info.data[f] == placed[f]
  }

  lemma OrderedConcat(ps: seq<Piece>, qs: seq<Piece>, limit: int)
    requires Ordered(ps) && Ordered(qs)
    requires forall f <- FieldsOf(ps) :: Rank(f) < limit
    requires forall f <- FieldsOf(qs) :: limit <= Rank(f)
    ensures Ordered(ps + qs)
  {
    assert forall i :: 0 <= i < |ps| ==> ps[i] in ps;
    assert forall i :: 0 <= i < |qs| ==> qs[i] in qs;
  }

  lemma PieceOrder(u: Url)
    ensures Ordered(Pieces(u)) && DelimitersOnly(Pieces(u))
  {
    var sps, pps := SchemePieces(u.scheme), PathPieces(u.path, u.tail);
    var aps := if u.authority.Some? then AuthorityPieces(u.authority.value) else [];
    hide Ordered, FieldsOf, DelimitersOnly, Pieces, SchemePieces, PathPieces, AuthorityPieces;
    PathOrder(u.path, u.tail);
    AuthorityOrder(u);
    OrderedConcat(sps + aps, pps, 4);
    assert Pieces(u) == sps + aps + pps by { PiecesAre(u); }
    DelimitersConcat(sps + aps, pps);
  }

  lemma PiecesAre(u: Url)
    ensures Pieces(u) == SchemePieces(u.scheme)
                         + (if u.authority.Some? then AuthorityPieces(u.authority.value) else [])
                         + PathPieces(u.path, u.tail)
  {
  }

  lemma DelimitersConcat(ps: seq<Piece>, qs: seq<Piece>)
    requires DelimitersOnly(ps) && DelimitersOnly(qs)
    ensures DelimitersOnly(ps + qs)
  {
  }

  lemma PathOrder(path: string, t: Tail)
    ensures Ordered(PathPieces(path, t)) && DelimitersOnly(PathPieces(path, t))
    ensures forall f <- FieldsOf(PathPieces(path, t)) :: 4 <= Rank(f)
  {
    TailOrder(t);
    hide Ordered, FieldsOf, DelimitersOnly, QueryPieces, FragmentPieces;
    var ps, qs, rs := [Piece(Some(UfPath), path)], QueryPieces(t.query), FragmentPieces(t.fragment);
    OnePathPiece(path);
    OrderedConcat(qs, rs, 6);
    DelimitersConcat(qs, rs);
    FieldsConcat(qs, rs);
    OrderedConcat(ps, qs + rs, 5);
    DelimitersConcat(ps, qs + rs);
    FieldsConcat(ps, qs + rs);
  }

  lemma OnePathPiece(path: string)
    ensures var ps := [Piece(Some(UfPath), path)]; Ordered(ps) && DelimitersOnly(ps) && FieldsOf(ps) == {UfPath}
  {
  }

  lemma TailOrder(t: Tail)
    ensures Ordered(QueryPieces(t.query)) && DelimitersOnly(QueryPieces(t.query))
    ensures Ordered(FragmentPieces(t.fragment)) && DelimitersOnly(FragmentPieces(t.fragment))
    ensures FieldsOf(QueryPieces(t.query)) <= {UfQuery} && FieldsOf(FragmentPieces(t.fragment)) <= {UfFragment}
  {
  }

  lemma AuthorityOrder(u: Url)
    ensures var ps := SchemePieces(u.scheme) + (if u.authority.Some? then AuthorityPieces(u.authority.value) else []);
            && Ordered(ps) && DelimitersOnly(ps)
            && forall f <- FieldsOf(ps) :: Rank(f) < 4
  {
    SchemeOrder(u.scheme);
    if u.authority.Some? {
      hide AuthorityPieces, SchemePieces, Ordered, FieldsOf, DelimitersOnly;
      var sps, aps := SchemePieces(u.scheme), AuthorityPieces(u.authority.value);
      InnerOrder(u.authority.value);
      OrderedConcat(sps, aps, 1);
      DelimitersConcat(sps, aps);
      FieldsConcat(sps, aps);
    } else {
      assert SchemePieces(u.scheme) + [] == SchemePieces(u.scheme);
    }
  }

  lemma InnerOrder(a: Authority)
    ensures Ordered(AuthorityPieces(a)) && DelimitersOnly(AuthorityPieces(a))
    ensures forall f <- FieldsOf(AuthorityPieces(a)) :: 1 <= Rank(f) < 4
  {
    SmallOrder(a);
    AuthorityFields(a);
    hide Ordered, FieldsOf, UserinfoPieces, HostPieces, PortPieces, DelimitersOnly;
    var us, hs, ps := UserinfoPieces(a.userinfo), HostPieces(a.host), PortPieces(a.port);
    OrderedConcat(us, hs, 2);
    OrderedConcat(us + hs, ps, 3);
    DelimitersConcat(us, hs);
    DelimitersConcat(us + hs, ps);
    FieldsConcat(us, hs);
    FieldsConcat(us + hs, ps);
  }

  lemma SchemeOrder(scheme: Option<string>)
    ensures Ordered(SchemePieces(scheme)) && DelimitersOnly(SchemePieces(scheme))
    ensures FieldsOf(SchemePieces(scheme)) <= {UfSchema}
  {
  }

  lemma SmallOrder(a: Authority)
    ensures Ordered(UserinfoPieces(a.userinfo)) && Ordered(HostPieces(a.host)) && Ordered(PortPieces(a.port))
    ensures DelimitersOnly(UserinfoPieces(a.userinfo)) && DelimitersOnly(HostPieces(a.host))
    ensures DelimitersOnly(PortPieces(a.port))
    ensures forall f <- FieldsOf(UserinfoPieces(a.userinfo)) :: Rank(f) == 1
    ensures forall f <- FieldsOf(HostPieces(a.host)) :: Rank(f) == 2
    ensures forall f <- FieldsOf(PortPieces(a.port)) :: Rank(f) == 3
  {
  }

  lemma ThreeParts(ps: seq<Piece>, qs: seq<Piece>, rs: seq<Piece>)
    requires FieldsOf(ps) !! FieldsOf(qs) && FieldsOf(ps) + FieldsOf(qs) !! FieldsOf(rs)
    ensures Flatten(ps + qs + rs) == Flatten(ps) + Flatten(qs) + Flatten(rs)
    ensures var n, m := |Flatten(ps)|, |Flatten(qs)|;
            && Place(ps + qs + rs, 0) == Place(ps, 0) + Place(qs, n) + Place(rs, n + m)
            && Place(ps + qs + rs, 0) == Place(ps, 0) + (Place(qs, n) + Place(rs, n + m))
  {
    hide Flatten, Place, FieldsOf;
    FieldsConcat(ps, qs);
    FlattenConcat(ps, qs); FlattenConcat(ps + qs, rs);
    PlaceConcat(ps, qs, 0); PlaceConcat(ps + qs, rs, 0);
  }

  /** The printed form with the authority as one raw piece, and with its own pieces. */
  lemma TwoLayouts(u: Url)
    requires u.authority.Some? && ValidAuthority(u.authority.value)
    ensures var a := u.authority.value;
            var w, n := Flatten(AuthorityPieces(a)), |Flatten(SchemePieces(u.scheme))|;
            var raw := RawPieces(u.scheme, w, u.path, u.tail);
            var before, after := Place(SchemePieces(u.scheme), 0), Place(PathPieces(u.path, u.tail), n + |w|);
            && Print(u) == Flatten(raw) == Flatten(SchemePieces(u.scheme)) + w + Flatten(PathPieces(u.path, u.tail))
            && Place(raw, 0) == before + (map[UfHost := Slice(n, |w|)] + after)
            && Place(Pieces(u), 0) == before + Place(AuthorityPieces(a), n) + after
            && before.Keys <= {UfSchema} && after.Keys <= {UfPath, UfQuery, UfFragment}
  {
    hide Flatten, Place, FieldsOf, AuthorityPieces, PathPieces, SchemePieces, InServer, StateRun, All, ValidAuthority;
    var a := u.authority.value;
    var sps, aps, pps := SchemePieces(u.scheme), AuthorityPieces(a), PathPieces(u.path, u.tail);
    var w, n := Flatten(aps), |Flatten(sps)|;
    RawFields(u.scheme, w, u.path, u.tail);
    AuthorityPlaced(a, n);
    AuthorityIsRaw(a);
    SinglePiece(Piece(Some(UfHost), w), n);
    PlaceKeys(sps, 0); PlaceKeys(pps, n + |w|);
    ThreeParts(sps, aps, pps);
    ThreeParts(sps, [Piece(Some(UfHost), w)], pps);
    assert sps + ([Piece(Some(UfHost), w)] + pps) == sps + [Piece(Some(UfHost), w)] + pps;
  }

  // ----- what fits 16 bits

  ghost predicate AllFit(placed: map<Field, Slice>) { forall f <- placed.Keys :: Fits(placed[f]) }

  /** The record keeps a slice as it is if and only if it fits. */
  lemma StoredExactlyWhen(placed: map<Field, Slice>)
    ensures Stored(placed).Keys == placed.Keys
    ensures Stored(placed) == placed <==> AllFit(placed)
  {
    if Stored(placed) == placed {
      forall f <- placed.Keys ensures Fits(placed[f]) {
        assert Stored(placed)[f] == Kept(placed[f]);
      }
    } else if AllFit(placed) {
      assert forall f <- placed.Keys :: Stored(placed)[f] == placed[f];
    }
  }

  lemma {:induction false} PlaceFits(ps: seq<Piece>, pos: nat)
    requires pos + |Flatten(ps)| <= 0xFFFF
    ensures AllFit(Place(ps, pos))
    decreases |ps|
  {
    if ps != [] {
      PlaceFits(ps[1..], pos + |ps[0].text|);
    }
  }

  /** Scheme and authority, which the second loop reads again, end within the 16-bit range. */
  predicate HeadFits(u: Url) {
    u.authority.Some? ==>
      |Flatten(SchemePieces(u.scheme))| + |Flatten(AuthorityPieces(u.authority.value))| <= 0xFFFF
  }

  /** What the authority loop makes of the raw layout: its own slices in place of the raw one. */
  lemma LayoutRefined(stale: map<Field, Slice>, before: map<Field, Slice>, host: Slice, after: map<Field, Slice>,
                      inner: map<Field, Slice>, fields: set<Field>, data: map<Field, Slice>, port: int)
    requires before.Keys <= {UfSchema} && after.Keys <= {UfPath, UfQuery, UfFragment}
    requires inner.Keys <= {UfUserinfo, UfHost, UfPort} && UfHost in inner
    requires fields == before.Keys + {UfHost} + after.Keys + inner.Keys
    requires data == (stale + (before + (map[UfHost := host] + after)))[UfHost := host.(len := 0)] + inner
    ensures Records(UrlInfo(fields, port, data), before + inner + after)
  {
  }

  lemma LayoutElsewhere(stale: map<Field, Slice>, before: map<Field, Slice>, host: Slice, after: map<Field, Slice>,
                        inner: map<Field, Slice>, data: map<Field, Slice>)
    requires UfHost in inner
    requires data == (stale + (before + (map[UfHost := host] + after)))[UfHost := host.(len := 0)] + inner
    ensures Untouched(data, stale, before + inner + after)
  {
  }

  /** Fields that are not placed keep what the record held. */
  ghost predicate Untouched(data: map<Field, Slice>, stale: map<Field, Slice>, placed: map<Field, Slice>) {
    forall f: Field :: f !in placed ==> At(data, f) == At(stale, f)
  }

  /** The authority loop on a host slice that holds a well-formed authority, wherever it lies. */
  lemma HostStageIs(buf: string, foundAt: bool, info: UrlInfo, a: Authority)
    requires ValidAuthority(a) && foundAt == a.userinfo.Some?
    requires UfHost in info.fields && InBuffer(At(info.data, UfHost), buf)
    requires Text(buf, At(info.data, UfHost)) == Flatten(AuthorityPieces(a))
    ensures var host := At(info.data, UfHost);
            var inner := Place(AuthorityPieces(a), host.off);
            && UfHost in inner
            && HostStage(buf, foundAt, info)
               == Outcome(true, UrlInfo(info.fields + inner.Keys, info.port,
                                        info.data[UfHost := host.(len := 0)] + Stored(inner)))
  {
    hide HostRun, Flatten, Place, AuthorityPieces, ValidAuthority, Stored;
    AuthorityRun(InitialHostScan(foundAt, info.fields, info.data), At(info.data, UfHost).off, a);
  }

  /** The authority loop after a first loop that left the raw layout. */
  lemma HostStageRefines(buf: string, foundAt: bool, info: UrlInfo, a: Authority, n: nat,
                         stale: map<Field, Slice>, before: map<Field, Slice>, after: map<Field, Slice>)
    requires ValidAuthority(a) && foundAt == a.userinfo.Some?
    requires n + |Flatten(AuthorityPieces(a))| <= |buf| && n + |Flatten(AuthorityPieces(a))| <= 0xFFFF
    requires buf[n..n + |Flatten(AuthorityPieces(a))|] == Flatten(AuthorityPieces(a))
    requires before.Keys <= {UfSchema} && after.Keys <= {UfPath, UfQuery, UfFragment}
    requires info.fields == before.Keys + {UfHost} + after.Keys
    requires info.data == stale + (before + (map[UfHost := Slice(n, |Flatten(AuthorityPieces(a))|)] + after))
    ensures var hosted := HostStage(buf, foundAt, info);
            && hosted.ok && hosted.info.port == info.port
            && Records(hosted.info, before + Place(AuthorityPieces(a), n) + after)
            && Untouched(hosted.info.data, stale, before + Place(AuthorityPieces(a), n) + after)
  {
    hide HostStage, Flatten, Place, AuthorityPieces, ValidAuthority, Records, Stored, Untouched;
    var w, inner := Flatten(AuthorityPieces(a)), Place(AuthorityPieces(a), n);
    var host := Slice(n, |w|);
    assert At(info.data, UfHost) == host && Text(buf, host) == w;
    HostStageIs(buf, foundAt, info, a);
    AuthorityPlaced(a, n);
    PlaceFits(AuthorityPieces(a), n);
    StoredExactlyWhen(inner);
    var hosted := HostStage(buf, foundAt, info).info;
    LayoutRefined(stale, before, host, after, inner, hosted.fields, hosted.data, info.port);
    LayoutElsewhere(stale, before, host, after, inner, hosted.data);
  }

  /** The two layouts as the record keeps them, when the head fits. */
  lemma StoredLayouts(u: Url)
    requires u.authority.Some? && ValidAuthority(u.authority.value) && HeadFits(u)
    ensures var a := u.authority.value;
            var w, n := Flatten(AuthorityPieces(a)), |Flatten(SchemePieces(u.scheme))|;
            var before, after := Place(SchemePieces(u.scheme), 0), Stored(Place(PathPieces(u.path, u.tail), n + |w|));
            && Stored(Place(RawPieces(u.scheme, w, u.path, u.tail), 0))
               == before + (map[UfHost := Slice(n, |w|)] + after)
            && Stored(Place(Pieces(u), 0)) == before + Place(AuthorityPieces(a), n) + after
            && before.Keys <= {UfSchema} && after.Keys <= {UfPath, UfQuery, UfFragment}
  {
    hide Flatten, Place, AuthorityPieces, PathPieces, SchemePieces, ValidAuthority, Stored, RawPieces, Pieces, Print;
    var a := u.authority.value;
    var w, n := Flatten(AuthorityPieces(a)), |Flatten(SchemePieces(u.scheme))|;
    var before, after := Place(SchemePieces(u.scheme), 0), Place(PathPieces(u.path, u.tail), n + |w|);
    var inner, host := Place(AuthorityPieces(a), n), map[UfHost := Slice(n, |w|)];
    TwoLayouts(u);
    PlaceFits(SchemePieces(u.scheme), 0);
    PlaceFits(AuthorityPieces(a), n);
    StoredExactlyWhen(before); StoredExactlyWhen(inner); StoredExactlyWhen(host); StoredExactlyWhen(after);
    StoredMerge(before, host + after); StoredMerge(host, after);
    StoredMerge(before + inner, after); StoredMerge(before, inner);
  }

  /** Both loops together on a URL with an authority. */
  lemma HostedParse(u: Url, isConnect: bool, before: UrlInfo)
    requires u.authority.Some? && ValidAuthority(u.authority.value) && ValidAfterAuthority(u.path, u.tail)
    requires u.scheme.None? == isConnect
    requires u.scheme.Some? ==> u.scheme.value != "" && All(IsAlpha, u.scheme.value)
    requires HeadFits(u)
    ensures var sc := ScanRun(InitialScan(isConnect, before.data), 0, Print(u));
            var hosted := HostStage(Print(u), sc.foundAt, UrlInfo(sc.fields, 0, sc.data));
            && !sc.s.Dead? && UfHost in sc.fields
            && hosted.ok && Records(hosted.info, Stored(Place(Pieces(u), 0))) && hosted.info.port == 0
            && Untouched(hosted.info.data, before.data, Stored(Place(Pieces(u), 0)))
  {
    hide ScanRun, HostStage, StateRun, Flatten, Place, AuthorityPieces, PathPieces, SchemePieces, All,
         ValidAuthority, ValidAfterAuthority, RawPieces, Print, Pieces, Records, Stored, Untouched;
    var a := u.authority.value;
    var w, n := Flatten(AuthorityPieces(a)), |Flatten(SchemePieces(u.scheme))|;
    TwoLayouts(u);
    StoredLayouts(u);
    AuthorityIsRaw(a);
    ServerFormRun(u.scheme, w, u.path, u.tail, before.data);
    var sc := ScanRun(InitialScan(isConnect, before.data), 0, Print(u));
    StoredExactlyWhen(Place(PathPieces(u.path, u.tail), n + |w|));
    HostStageRefines(Print(u), sc.foundAt, UrlInfo(sc.fields, 0, sc.data), a, n, before.data,
                     Place(SchemePieces(u.scheme), 0), Stored(Place(PathPieces(u.path, u.tail), n + |w|)));
  }

  lemma AuthorityPlaced(a: Authority, pos: nat)
    ensures FieldsOf(AuthorityPieces(a)) <= {UfUserinfo, UfHost, UfPort}
    ensures forall u: Option<string> ::
              FieldsOf(SchemePieces(u) + AuthorityPieces(a)) <= {UfSchema, UfUserinfo, UfHost, UfPort}
    ensures Place(AuthorityPieces(a), pos).Keys <= {UfUserinfo, UfHost, UfPort}
  {
    hide Place;
    AuthorityFields(a);
    FieldsConcat(UserinfoPieces(a.userinfo) + HostPieces(a.host), PortPieces(a.port));
    PlaceKeys(AuthorityPieces(a), pos);
    forall u: Option<string>
      ensures FieldsOf(SchemePieces(u) + AuthorityPieces(a)) <= {UfSchema, UfUserinfo, UfHost, UfPort}
    {
      FieldsConcat(SchemePieces(u), AuthorityPieces(a));
    }
  }

  /** The port stage on a record that holds the printed tree. */
  lemma PortStageOnPrinted(u: Url, info: UrlInfo)
    requires u.authority.Some? ==> ValidAuthority(u.authority.value)
    requires Records(info, Stored(Place(Pieces(u), 0))) && info.port == 0 && HeadFits(u)
    ensures var r := PortStage(Print(u), info);
            && (r.ok <==> PortNumber(u) <= 0xffff)
            && (r.ok ==> r.info == info.(port := PortNumber(u)))
  {
    PortIsKept(u, info);
    hide Place, Pieces, Value, Decimal, PortLoop, Flatten, ValidHost, Records, Stored, HeadFits;
    PlacedText(Pieces(u), 0, UfPort);
    UrlValue(u, UfPort);
    assert Decimal("") == 0 by { NoDigits(); }
    if UfPort in info.fields {
      var digits := Component(u, UfPort);
      assert Text(Print(u), At(info.data, UfPort)) == digits;
      PortLoopIsDecimal("", digits);
      assert "" + digits == digits;
    }
  }

  /** The port lies in the authority, so its slice is kept as it is. */
  lemma PortIsKept(u: Url, info: UrlInfo)
    requires u.authority.Some? ==> ValidAuthority(u.authority.value)
    requires Records(info, Stored(Place(Pieces(u), 0))) && HeadFits(u)
    ensures UfPort in info.fields <==> UfPort in Place(Pieces(u), 0)
    ensures UfPort in info.fields ==> At(info.data, UfPort) == Place(Pieces(u), 0)[UfPort]
  {
    hide Flatten, Place, AuthorityPieces, PathPieces, SchemePieces, ValidAuthority, Stored, RawPieces, Pieces, Print,
         HeadFits;
    var placed := Place(Pieces(u), 0);
    StoredExactlyWhen(placed);
    if u.authority.Some? {
      StoredLayouts(u);
      TwoLayouts(u);
    } else {
      UrlValue(u, UfPort);
      PlacedText(Pieces(u), 0, UfPort);
    }
  }

  lemma NoDigits()
    ensures Decimal("") == 0
  {
  }

  /** The record sets exactly the non-empty values of the tree, each to a slice that holds it. */
  ghost predicate HoldsTree(buf: string, info: UrlInfo, u: Url) {
    forall f: Field ::
      && (f in info.fields <==> Component(u, f) != "")
      && (f in info.fields ==> InBuffer(At(info.data, f), buf) && Text(buf, At(info.data, f)) == Component(u, f))
  }

  /** Whatever became of the slices, the fields set are those with a value. */
  lemma FieldsAreValues(u: Url, info: UrlInfo)
    requires u.authority.Some? ==> ValidAuthority(u.authority.value)
    requires info.fields == Place(Pieces(u), 0).Keys
    ensures forall f: Field :: f in info.fields <==> Component(u, f) != ""
  {
    hide Place, Pieces, Value, Flatten, Component;
    forall f: Field ensures f in info.fields <==> Component(u, f) != "" {
      PlacedText(Pieces(u), 0, f);
      UrlValue(u, f);
    }
  }

  lemma RecordsHoldTree(u: Url, info: UrlInfo)
    requires u.authority.Some? ==> ValidAuthority(u.authority.value)
    requires Records(info, Place(Pieces(u), 0))
    ensures HoldsTree(Print(u), info, u)
  {
    hide Place, Pieces, Value, Flatten, Component;
    forall f: Field
      ensures f in info.fields <==> Component(u, f) != ""
      ensures f in info.fields ==>
                InBuffer(At(info.data, f), Print(u)) && Text(Print(u), At(info.data, f)) == Component(u, f)
    {
      PlacedText(Pieces(u), 0, f);
      UrlValue(u, f);
    }
  }

  lemma PrintedNonEmpty(u: Url)
    requires u.authority.Some? ==> ValidAuthority(u.authority.value)
    requires u.authority.None? ==> u.path != ""
    ensures Print(u) != ""
  {
    hide Place, Pieces, Value, Flatten;
    var f := if u.authority.Some? then UfHost else UfPath;
    PlacedText(Pieces(u), 0, f);
    UrlValue(u, f);
  }

  /** The first loop on a URL without an authority. */
  lemma PathParse(u: Url, before: UrlInfo)
    requires u.authority.None? && ValidUrl(u)
    ensures var sc := ScanRun(InitialScan(false, before.data), 0, Print(u));
            && !sc.s.Dead? && UfSchema !in sc.fields && UfHost !in sc.fields
            && Records(UrlInfo(sc.fields, 0, sc.data), Stored(Place(Pieces(u), 0)))
            && Untouched(sc.data, before.data, Stored(Place(Pieces(u), 0)))
  {
    hide ScanRun, Place, Flatten, PathPieces, Pieces, FieldsOf, All, Stored;
    PiecesAre(u);
    var pps := PathPieces(u.path, u.tail);
    NoScheme();
    assert Pieces(u) == pps;
    RawFields(None, "", u.path, u.tail);
    PlaceKeys(pps, 0);
    PathFormRun(u.path, u.tail, before.data);
    StoredExactlyWhen(Place(pps, 0));
  }

  lemma NoScheme()
    ensures SchemePieces(None) == []
  {
  }

  lemma ConnectComponents(u: Url, f: Field)
    requires ValidConnect(u)
    ensures Component(u, f) != "" <==> f == UfHost || f == UfPort
  {
  }

  /** The record is the tree's layout if and only if the layout fits. */
  lemma RecordsExactlyWhen(info: UrlInfo, placed: map<Field, Slice>)
    requires Records(info, Stored(placed))
    ensures info.fields == placed.Keys
    ensures Records(info, placed) <==> AllFit(placed)
  {
    hide Stored, AllFit;
    StoredExactlyWhen(placed);
    if Records(info, placed) {
      assert Stored(placed) == placed;
    }
  }

  /** Parsing the printed form of a well-formed tree whose head fits succeeds exactly when its port
      fits 16 bits.  The record then has the tree's fields and port, each slice kept in 16 bits; it
      points at every value of the tree if and only if all offsets and lengths fit.  Other fields keep the
      slices the record held. */
  lemma RoundTrip(u: Url, isConnect: bool, before: UrlInfo)
    requires Valid(u, isConnect) && HeadFits(u)
    ensures var r, placed := Parse(Print(u), isConnect, before), Place(Pieces(u), 0);
            && (r.ok <==> PortNumber(u) <= 0xffff)
            && (r.ok ==>
                  && r.info.port == PortNumber(u)
                  && Records(r.info, Stored(placed)) && Untouched(r.info.data, before.data, Stored(placed))
                  && (Records(r.info, placed) <==> AllFit(placed))
                  && (AllFit(placed) ==> HoldsTree(Print(u), r.info, u)))
  {
    hide Place, Print, Pieces, ScanRun, HostStage, PortStage, ValidAfterAuthority, All, ValidAuthority, PortNumber,
         Stored, AllFit, Records, HoldsTree, HeadFits, Untouched;
    PrintedNonEmpty(u);
    var sc := ScanRun(InitialScan(isConnect, before.data), 0, Print(u));
    var scanned := UrlInfo(sc.fields, 0, sc.data);
    if u.authority.Some? {
      HostedParse(u, isConnect, before);
    } else {
      PathParse(u, before);
      NoHostStage(Print(u), sc.foundAt, scanned);
    }
    var hosted := HostStage(Print(u), sc.foundAt, scanned);
    RecordsExactlyWhen(hosted.info, Place(Pieces(u), 0));
    if isConnect {
      FieldsAreValues(u, hosted.info);
      forall f: Field ensures f in hosted.info.fields <==> f == UfHost || f == UfPort {
        ConnectComponents(u, f);
      }
      assert hosted.info.fields == {UfHost, UfPort};
    }
    PortStageOnPrinted(u, hosted.info);
    var final := hosted.info.(port := PortNumber(u));
    PortIrrelevant(hosted.info, final, Stored(Place(Pieces(u), 0)));
    RecordsExactlyWhen(final, Place(Pieces(u), 0));
    if AllFit(Place(Pieces(u), 0)) {
      RecordsHoldTree(u, final);
    }
  }

  lemma PortIrrelevant(info: UrlInfo, info': UrlInfo, placed: map<Field, Slice>)
    requires Records(info, placed) && info' == info.(port := info'.port)
    ensures Records(info', placed)
  {
  }

  /** Within 65535 bytes everything fits. */
  lemma ShortFits(u: Url)
    requires |Print(u)| <= 0xFFFF
    ensures AllFit(Place(Pieces(u), 0)) && HeadFits(u)
  {
    hide Flatten, Place, AuthorityPieces, PathPieces, SchemePieces;
    PlaceFits(Pieces(u), 0);
    if u.authority.Some? {
      var sps, aps, pps := SchemePieces(u.scheme), AuthorityPieces(u.authority.value), PathPieces(u.path, u.tail);
      PiecesAre(u);
      FlattenConcat(sps, aps);
      FlattenConcat(sps + aps, pps);
    }
  }

  lemma NoHostStage(buf: string, foundAt: bool, info: UrlInfo)
    requires UfHost !in info.fields
    ensures HostStage(buf, foundAt, info) == Outcome(true, info)
  {
  }
}
