/** What the URL parser accepts among buffers of any length.  The authority is read again through a
    16-bit slice, and its port through another, so a long head may be judged by other bytes than its
    own (`FalseAcceptance`); `EveryBuffer` says exactly by which. */
module UrlEveryBuffer {
  import opened Wrappers
  import opened UrlChars
  import opened UrlParser
  import opened UrlGrammar
  import opened UrlScanProofs
  import opened UrlHostProofs
  import opened UrlTiling
  import opened UrlTheorems
  import opened UrlAcceptance
  import opened UrlUnambiguous

  // ----- a URL as the first loop sees it

  /** A URL whose authority is any text the first loop lets through. */
  datatype Raw = Raw(scheme: Option<string>, authority: string, path: string, tail: Tail)

  predicate NoDoubleAt(a: string) { forall i :: 0 < i < |a| && a[i] == '@' ==> a[i - 1] != '@' }

  predicate ValidRaw(r: Raw) {
    && (r.scheme.Some? ==> r.scheme.value != "" && All(IsAlpha, r.scheme.value))
    && r.authority != "" && All(IsServerChar, r.authority) && NoDoubleAt(r.authority)
    && ValidAfterAuthority(r.path, r.tail)
  }

  function RawText(r: Raw): string {
    SchemeText(r.scheme) + r.authority + Flatten(PathPieces(r.path, r.tail))
  }

  /** Outside a doubled '@' the authority state is never left. */
  lemma {:induction false} RawExactlyWhen(s: State, a: string)
    requires InServer(s) && All(IsServerChar, a)
    ensures InServer(StateRun(s, a)) <==> NoDoubleAt(a) && (s.ServerWithAt? && a != "" ==> a[0] != '@')
    decreases |a|
  {
    hide NextState, IsServerChar;
    if a != "" {
      ServerStep(s, a[0]);
      DeadStays(a[1..]);
      NoDoubleAtSplits(a);
      hide NoDoubleAt;
      if !NextState(s, a[0]).Dead? {
        RawExactlyWhen(NextState(s, a[0]), a[1..]);
      }
    }
  }

  lemma NoDoubleAtSplits(a: string)
    requires a != ""
    ensures NoDoubleAt(a) <==> NoDoubleAt(a[1..]) && (|a| > 1 && a[0] == '@' ==> a[1] != '@')
  {
    if NoDoubleAt(a) {
      forall i | 0 < i < |a[1..]| && a[1..][i] == '@' ensures a[1..][i - 1] != '@' {
        assert a[i + 1] == '@';
      }
    } else {
      var i :| 0 < i < |a| && a[i] == '@' && a[i - 1] == '@';
      if i > 1 {
        assert a[1..][i - 1] == '@' && a[1..][i - 2] == '@';
      }
    }
  }

  // ----- what is read again

  /** The authority as the record keeps it. */
  function HostSlice(r: Raw): Slice { Kept(Slice(|SchemeText(r.scheme)|, |r.authority|)) }

  lemma HostSliceInside(r: Raw)
    ensures InBuffer(HostSlice(r), RawText(r))
  {
    hide Flatten, PathPieces;
  }

  /** The bytes the authority loop reads. */
  function Seen(r: Raw): string {
    HostSliceInside(r);
    Text(RawText(r), HostSlice(r))
  }

  /** Where the second loop finds the port of the authority it has seen. */
  function PortSlice(r: Raw, a: Authority): Slice
    requires a.port.Some?
  {
    Kept(Slice(HostSlice(r).off + |Flatten(UserinfoPieces(a.userinfo) + HostPieces(a.host))| + 1, |a.port.value|))
  }

  /** Nothing but a host and a port. */
  predicate NothingElse(r: Raw, a: Authority) {
    && r.scheme.None? && r.path == "" && a.port.Some?
    && (r.tail.query.Some? ==> r.tail.query.value == "")
    && (r.tail.fragment.Some? ==> r.tail.fragment.value.text == "")
    && (a.userinfo.Some? ==> a.userinfo.value == "")
  }

  /** The bytes seen are a well-formed authority, and those seen as its port convert. */
  predicate Accepted(r: Raw, a: Authority, isConnect: bool) {
    && ValidRaw(r) && r.scheme.None? == isConnect
    && ValidAuthority(a) && a.userinfo.Some? == ('@' in r.authority) && Seen(r) == Flatten(AuthorityPieces(a))
    && (isConnect ==> NothingElse(r, a))
    && (a.port.Some? ==> InBuffer(PortSlice(r, a), RawText(r)) && PortLoop(0, Text(RawText(r), PortSlice(r, a))).Some?)
  }

  // ----- the first loop

  lemma RawLayout(r: Raw)
    ensures Flatten(RawPieces(r.scheme, r.authority, r.path, r.tail)) == RawText(r)
  {
    hide Flatten, PathPieces, RawPieces;
    PrintedRaw(r.scheme, r.authority, r.path, r.tail);
  }

  lemma RawScan(r: Raw, data: map<Field, Slice>)
    requires ValidRaw(r)
    ensures var sc := ScanRun(InitialScan(r.scheme.None?, data), 0, RawText(r));
            var placed := Place(RawPieces(r.scheme, r.authority, r.path, r.tail), 0);
            && !sc.s.Dead? && sc.fields == placed.Keys && UfHost in sc.fields
            && sc.foundAt == ('@' in r.authority) && At(sc.data, UfHost) == HostSlice(r)
  {
    hide ScanRun, StateRun, Flatten, Place, All, ValidAfterAuthority, RawPieces, NoDoubleAt, RawText, InServer;
    RawLayout(r);
    ServerStarts();
    RawExactlyWhen(ServerStart, r.authority);
    ServerFormRun(r.scheme, r.authority, r.path, r.tail, data);
    RawHostPlace(r.scheme, r.authority, r.path, r.tail);
    var placed := Place(RawPieces(r.scheme, r.authority, r.path, r.tail), 0);
    StoredKeys(placed);
    assert Stored(placed)[UfHost] == Kept(placed[UfHost]);
  }

  lemma ServerStarts()
    ensures InServer(ServerStart)
  {
  }

  // ----- the fields and the port after the second loop

  function RawComponent(r: Raw, f: Field): string {
    match f
    case UfSchema => if r.scheme.Some? then r.scheme.value else ""
    case UfHost => r.authority
    case UfPath => r.path
    case UfQuery => if r.tail.query.Some? then r.tail.query.value else ""
    case UfFragment => if r.tail.fragment.Some? then r.tail.fragment.value.text else ""
    case _ => ""
  }

  lemma RawValue(r: Raw, f: Field)
    ensures Value(RawPieces(r.scheme, r.authority, r.path, r.tail), f) == RawComponent(r, f)
  {
    hide Value, TailPieces;
    var host, path, tps := Piece(Some(UfHost), r.authority), Piece(Some(UfPath), r.path), TailPieces(r.tail);
    ValueConcat(SchemePieces(r.scheme), [host] + ([path] + tps), f);
    ValueConcat([host], [path] + tps, f);
    ValueConcat([path], tps, f);
    TailValue(r.tail, f);
    PairValue(host, path, f);
    PairValue(Piece(Some(UfSchema), if r.scheme.Some? then r.scheme.value else ""), Piece(None, "://"), f);
  }

  /** Which fields are set once the authority seen is `a`. */
  lemma FieldsSet(r: Raw, a: Authority, pos: nat, fields: set<Field>)
    requires ValidRaw(r) && ValidAuthority(a)
    requires fields == Place(RawPieces(r.scheme, r.authority, r.path, r.tail), 0).Keys
                       + Place(AuthorityPieces(a), pos).Keys
    ensures fields == {UfHost, UfPort} <==> NothingElse(r, a)
    ensures UfPort in fields <==> a.port.Some?
  {
    hide Place, Value, RawPieces, AuthorityPieces, Flatten, All, ValidAfterAuthority, NoDoubleAt;
    forall f: Field
      ensures f in fields <==> RawComponent(r, f) != "" || AuthorityComponent(a, f) != ""
    {
      PlacedText(RawPieces(r.scheme, r.authority, r.path, r.tail), 0, f);
      PlacedText(AuthorityPieces(a), pos, f);
      RawValue(r, f);
      AuthorityValue(a, f);
    }
    assert UfHost in fields;
    if NothingElse(r, a) {
      assert forall f: Field :: f in fields <==> f in {UfHost, UfPort};
    } else {
      assert UfSchema in fields || UfPath in fields || UfQuery in fields || UfFragment in fields
          || UfUserinfo in fields || UfPort !in fields;
      assert UfPort in {UfHost, UfPort};
    }
  }

  lemma PortPlaced(a: Authority, pos: nat)
    requires ValidAuthority(a) && a.port.Some?
    ensures var inner := Place(AuthorityPieces(a), pos);
            var n := |Flatten(UserinfoPieces(a.userinfo) + HostPieces(a.host))|;
            && UfPort in inner && inner[UfPort] == Slice(pos + n + 1, |a.port.value|)
            && n + 1 + |a.port.value| == |Flatten(AuthorityPieces(a))|
  {
    hide Place, Flatten, FieldsOf, UserinfoPieces, HostPieces, ValidHost, All;
    var ns, ps := UserinfoPieces(a.userinfo) + HostPieces(a.host), PortPieces(a.port);
    AuthorityFields(a);
    FlattenConcat(ns, ps);
    PlaceConcat(ns, ps, pos);
    DelimiterAndField(":", UfPort, a.port.value, pos + |Flatten(ns)|);
  }

  lemma PortSliceInside(r: Raw, a: Authority)
    requires ValidAuthority(a) && a.port.Some? && Seen(r) == Flatten(AuthorityPieces(a))
    ensures InBuffer(PortSlice(r, a), RawText(r))
  {
    hide Flatten, AuthorityPieces, UserinfoPieces, HostPieces, ValidAuthority, RawText;
    HostSliceInside(r);
    PortPlaced(a, HostSlice(r).off);
  }

  // ----- both loops together

  /** The rest of the parse, once the bytes seen are the authority `a`. */
  lemma SeenParse(r: Raw, a: Authority, isConnect: bool, before: UrlInfo)
    requires ValidRaw(r) && r.scheme.None? == isConnect
    requires ValidAuthority(a) && a.userinfo.Some? == ('@' in r.authority) && Seen(r) == Flatten(AuthorityPieces(a))
    ensures Parse(RawText(r), isConnect, before).ok <==> Accepted(r, a, isConnect)
  {
    hide ScanRun, HostStage, Place, Flatten, RawPieces, AuthorityPieces, ValidRaw, ValidAuthority, PortLoop, Stored,
         RawText, UserinfoPieces, HostPieces, PortSlice, HostSlice, NothingElse;
    RawScan(r, before.data);
    RawNonEmpty(r);
    HostSliceInside(r);
    var buf := RawText(r);
    var sc := ScanRun(InitialScan(isConnect, before.data), 0, buf);
    var scanned := UrlInfo(sc.fields, 0, sc.data);
    HostStageIs(buf, sc.foundAt, scanned, a);
    var inner := Place(AuthorityPieces(a), HostSlice(r).off);
    var hosted := HostStage(buf, sc.foundAt, scanned).info;
    FieldsSet(r, a, HostSlice(r).off, hosted.fields);
    if a.port.Some? {
      PortSliceInside(r, a);
      PortKept(r, a, sc.data[UfHost := HostSlice(r).(len := 0)]);
    }
  }

  lemma RawNonEmpty(r: Raw)
    requires ValidRaw(r)
    ensures RawText(r) != ""
  {
    hide Flatten, PathPieces;
  }

  lemma PortKept(r: Raw, a: Authority, data: map<Field, Slice>)
    requires ValidAuthority(a) && a.port.Some? && HostSlice(r).off >= 0
    ensures At(data + Stored(Place(AuthorityPieces(a), HostSlice(r).off)), UfPort) == PortSlice(r, a)
  {
    hide Place, Flatten, AuthorityPieces, UserinfoPieces, HostPieces, ValidAuthority, HostSlice;
    PortPlaced(a, HostSlice(r).off);
    var inner := Place(AuthorityPieces(a), HostSlice(r).off);
    assert Stored(inner)[UfPort] == Kept(inner[UfPort]);
  }

  /** A buffer that passes both loops was seen to have a well-formed authority. */
  lemma RawSound(buf: string, isConnect: bool, before: UrlInfo) returns (r: Raw, a: Authority)
    requires Parse(buf, isConnect, before).ok
    requires UfHost in ScanRun(InitialScan(isConnect, before.data), 0, buf).fields
    ensures Accepted(r, a, isConnect) && RawText(r) == buf
  {
    hide ScanRun, Flatten, StateRun, RawPieces, AuthorityPieces, ValidAuthority, ValidAfterAuthority, All, PortStage,
         HostRun, HostStateRun, RawText, NoDoubleAt, Accepted, HostAccepts;
    var sc := ScanRun(InitialScan(isConnect, before.data), 0, buf);
    var scheme, w, path, t := RawFormSound(buf, isConnect, before.data);
    r := Raw(scheme, w, path, t);
    RawLayout(r);
    RawExactlyWhen(ServerStart, w);
    RawScan(r, before.data);
    HostSliceInside(r);
    HostFollowsStates(InitialHostScan(sc.foundAt, sc.fields, sc.data), HostSlice(r).off, Seen(r));
    a := AuthoritySound(sc.foundAt, Seen(r));
    SeenParse(r, a, isConnect, before);
  }

  /** Every buffer, of any length, is accepted if and only if it is a path with its tail, or the bytes
      at the 16-bit slice of its authority are a well-formed one whose port, read at its own 16-bit
      slice, converts. */
  lemma EveryBuffer(buf: string, isConnect: bool, before: UrlInfo)
    ensures Parse(buf, isConnect, before).ok
       <==> || (!isConnect && exists u :: ValidUrl(u) && u.authority.None? && Print(u) == buf)
            || (exists r, a :: Accepted(r, a, isConnect) && RawText(r) == buf)
  {
    if Parse(buf, isConnect, before).ok {
      Forwards(buf, isConnect, before);
    }
    hide *;
    if !isConnect && exists u :: ValidUrl(u) && u.authority.None? && Print(u) == buf {
      var u :| ValidUrl(u) && u.authority.None? && Print(u) == buf;
      PathAccepted(u, before);
    }
    if exists r, a :: Accepted(r, a, isConnect) && RawText(r) == buf {
      var r, a :| Accepted(r, a, isConnect) && RawText(r) == buf;
      AcceptedParses(r, a, isConnect, before);
    }
  }

  lemma AcceptedParses(r: Raw, a: Authority, isConnect: bool, before: UrlInfo)
    requires Accepted(r, a, isConnect)
    ensures Parse(RawText(r), isConnect, before).ok
  {
    hide Parse, ValidRaw, ValidAuthority, Flatten, AuthorityPieces, Seen, RawText, PortLoop, PortSlice, NothingElse;
    SeenParse(r, a, isConnect, before);
  }

  lemma PathAccepted(u: Url, before: UrlInfo)
    requires ValidUrl(u) && u.authority.None?
    ensures Parse(Print(u), false, before).ok
  {
    hide Parse, Print, Place, Pieces, Stored, AllFit, HoldsTree, Records, ValidTail, All;
    RoundTrip(u, false, before);
  }

  lemma Forwards(buf: string, isConnect: bool, before: UrlInfo)
    requires Parse(buf, isConnect, before).ok
    ensures || (!isConnect && exists u :: ValidUrl(u) && u.authority.None? && Print(u) == buf)
            || (exists r, a :: Accepted(r, a, isConnect) && RawText(r) == buf)
  {
    hide ScanRun, HostStage, PortStage, ValidUrl, Print, Accepted, RawText;
    var sc := ScanRun(InitialScan(isConnect, before.data), 0, buf);
    if UfHost in sc.fields {
      var r, a := RawSound(buf, isConnect, before);
    } else {
      NoHostStage(buf, sc.foundAt, UrlInfo(sc.fields, 0, sc.data));
      var u := PathFormSound(buf, before.data);
    }
  }

  // ----- a buffer that is no URL

  function Colons(n: nat): string { seq(n, _ => ':') }

  /** "http://a" and 65536 colons: the length of the authority wraps to 1. */
  const LongHead := Raw(Some("http"), "a" + Colons(0x1_0000), "", Tail(None, None))

  /** It is accepted, and it is the printed form of no tree. */
  lemma FalseAcceptance(before: UrlInfo)
    ensures Parse(RawText(LongHead), false, before).ok
    ensures forall u :: ValidUrl(u) ==> Print(u) != RawText(LongHead)
  {
    hide Parse, ValidUrl, Print, RawText, Accepted, Flatten, AuthorityPieces, Colons, HostSlice;
    LongHeadIsSeen();
    SeenParse(LongHead, Authority(None, RegName("a"), None), false, before);
    forall u | ValidUrl(u) ensures Print(u) != RawText(LongHead) {
      NotLongHead(u);
    }
  }

  lemma NotLongHead(u: Url)
    requires ValidUrl(u)
    ensures Print(u) != RawText(LongHead)
  {
    hide Print, RawText, Flatten, AuthorityPieces, PathPieces, Colons, ValidAuthority, ValidAfterAuthority, HostSlice,
         IsAlpha;
    FirstOfPrint(u);
    LongHeadIsSeen();
    ColonsAre(0x1_0000);
    if u.authority.Some? {
      NoDoubleColon(u.authority.value);
      if Print(u) == RawText(LongHead) {
        SameAuthority(u, LongHead);
      }
    } else {
      LongHeadStart();
    }
  }

  lemma LongHeadStart()
    ensures RawText(LongHead) != "" && IsAlpha(RawText(LongHead)[0])
  {
    LongHeadIsSeen();
    hide RawText, Colons;
    assert ("http://a" + Colons(0x1_0000))[0] == 'h';
  }

  /** A tree has the authority of the raw URL it prints to. */
  lemma SameAuthority(u: Url, r: Raw)
    requires ValidUrl(u) && u.authority.Some? && ValidRaw(r) && r.scheme.Some? && Print(u) == RawText(r)
    ensures Flatten(AuthorityPieces(u.authority.value)) == r.authority
  {
    hide Flatten, PathPieces, AuthorityPieces, Print, HeadEnd, ValidAuthority, ValidAfterAuthority, RawPieces, All,
         NoDoubleAt;
    var w, rest, rest' := Flatten(AuthorityPieces(u.authority.value)), Flatten(PathPieces(u.path, u.tail)),
                          Flatten(PathPieces(r.path, r.tail));
    HeadOf(u, false);
    RawLayout(r);
    HeadEndIs(r.scheme, r.authority, r.path, r.tail);
    assert r.scheme.value + "://" + r.authority + rest' == r.scheme.value + "://" + (r.authority + rest');
    SameScheme(u.scheme.value, w + rest, r.scheme.value, r.authority + rest');
    SameCut(w, rest, r.authority, rest');
  }

  /** No authority starts with a letter and two colons, unless they belong to its userinfo. */
  lemma NoDoubleColon(a: Authority)
    requires ValidAuthority(a)
    ensures var w := Flatten(AuthorityPieces(a));
            '@' in w || |w| <= 2 || w[0] != 'a' || w[1] != ':' || w[2] != ':'
  {
    hide HostRun, Flatten, Place, AuthorityPieces, ValidAuthority, HostStateRun, All, StateRun, InServer, Stored;
    var w := Flatten(AuthorityPieces(a));
    AuthorityIsRaw(a);
    var h := HostScan(if a.userinfo.Some? then UserinfoStart else HostStart, {UfHost}, map[UfHost := Slice(0, 0)]);
    AuthorityRun(h, 0, a);
    HostFollowsStates(h, 0, w);
    if |w| > 2 && w[0] == 'a' && w[1] == ':' && w[2] == ':' {
      ColonsDie(w);
    }
  }

  lemma LongHeadIsSeen()
    ensures var r, a := LongHead, Authority(None, RegName("a"), None);
            && ValidRaw(r) && ValidAuthority(a) && '@' !in r.authority
            && RawText(r) == "http://a" + Colons(0x1_0000) && Seen(r) == Flatten(AuthorityPieces(a)) == "a"
            && Accepted(r, a, false)
  {
    var r, a := LongHead, Authority(None, RegName("a"), None);
    hide Flatten, PathPieces, AuthorityPieces, Colons;
    PrintedPath("", r.tail);
    PrintedTail(r.tail);
    NoPieces(0);
    PrintedAuthority(a);
    PrintedHost(a.host, 0);
    ColonsAre(0x1_0000);
    assert RawText(r) == "http://a" + Colons(0x1_0000);
    assert HostSlice(r) == Slice(7, 1);
    assert RawText(r)[7..8] == "a";
  }

  lemma ColonsAre(n: nat)
    ensures |Colons(n)| == n && forall i :: 0 <= i < n ==> Colons(n)[i] == ':'
  {
  }

  lemma ColonsDie(w: string)
    requires |w| > 2 && w[0] == 'a' && w[1] == ':' && w[2] == ':'
    ensures HostStateRun(HostStart, w) == HostDead
  {
    var x := w[1..];
    var y := x[1..];
    assert HostStateRun(HostStart, w) == HostStateRun(Host, x);
    assert HostStateRun(Host, x) == HostStateRun(PortStart, y);
    DeadHostStateStays(y[1..]);
  }
}
