/** What the URL parser accepts: exactly the printed forms of well-formed trees with a 16-bit port
    (`ExactAcceptance`), as long as the scheme and the authority end within the 16-bit range; and the
    slices of a successful parse tile the buffer (`Tiling`). */
module UrlAcceptance {
  import opened Wrappers
  import opened UrlChars
  import opened UrlParser
  import opened UrlGrammar
  import opened UrlScanProofs
  import opened UrlHostProofs
  import opened UrlTiling
  import opened UrlTheorems

  // ----- soundness

  lemma {:induction false} FieldsGrow(sc: Scan, pos: nat, w: string)
    ensures sc.fields <= ScanRun(sc, pos, w).fields
    decreases |w|
  {
    if w != "" {
      FieldsGrow(ScanChar(sc, pos, w[0]), pos + 1, w[1..]);
    }
  }

  lemma FirstChar(sc: Scan, c: char)
    requires sc.s.Start? && UfHost !in sc.fields
    ensures var first := ScanChar(sc, 0, c);
            && UfHost !in first.fields
            && (if first.s.Schema? then IsAlpha(c) else PastServer(first.s))
  {
  }

  /** What surviving the first loop means for a URL that has a host field. */
  lemma RawFormSound(buf: string, isConnect: bool, data: map<Field, Slice>)
      returns (scheme: Option<string>, a: string, path: string, t: Tail)
    requires var sc := ScanRun(InitialScan(isConnect, data), 0, buf); !sc.s.Dead? && UfHost in sc.fields
    ensures buf == Flatten(RawPieces(scheme, a, path, t)) && scheme.None? == isConnect
    ensures scheme.Some? ==> scheme.value != "" && All(IsAlpha, scheme.value)
    ensures a != "" && All(IsServerChar, a) && InServer(StateRun(ServerStart, a)) && ValidAfterAuthority(path, t)
  {
    hide Flatten, ValidAfterAuthority, StateRun, PathPieces, IsServerChar, NextState, ScanChar, IsAlpha;
    var sc := InitialScan(isConnect, data);
    if isConnect {
      scheme := None;
      a, path, t := HostNeedsAuthority(sc, 0, buf);
    } else {
      assert buf != "";
      var first := ScanChar(sc, 0, buf[0]);
      FirstChar(sc, buf[0]);
      if !first.s.Schema? {
        NoHostPastServer(first, 1, buf[1..]);
      }
      var rest;
      rest, a, path, t := SchemaSound(first, 1, buf[1..]);
      scheme := Some([buf[0]] + rest);
    }
    PrintedRaw(scheme, a, path, t);
  }

  lemma PrintedRaw(scheme: Option<string>, a: string, path: string, t: Tail)
    ensures Flatten(RawPieces(scheme, a, path, t))
         == (if scheme.Some? then scheme.value + "://" else "") + a + Flatten(PathPieces(path, t))
  {
    hide Flatten, PathPieces;
    var sps, rps := SchemePieces(scheme), [Piece(Some(UfHost), a)] + PathPieces(path, t);
    FlattenConcat(sps, rps);
    FlattenConcat([Piece(Some(UfHost), a)], PathPieces(path, t));
    SinglePiece(Piece(Some(UfHost), a), 0);
    NoPieces(0);
    if scheme.Some? {
      FieldAndDelimiter(UfSchema, scheme.value, "://", 0);
    }
  }

  // ----- where the head of a buffer ends

  function ServerEnd(buf: string, from: nat): (k: nat)
    requires from <= |buf|
    ensures from <= k <= |buf|
    decreases |buf| - from
  {
    if from == |buf| || !IsServerChar(buf[from]) then from else ServerEnd(buf, from + 1)
  }

  function AlphaEnd(buf: string, from: nat): (k: nat)
    requires from <= |buf|
    ensures from <= k <= |buf|
    decreases |buf| - from
  {
    if from == |buf| || !IsAlpha(buf[from]) then from else AlphaEnd(buf, from + 1)
  }

  /** The end of what would be the scheme and the authority; 0 for a buffer that starts with its path. */
  function HeadEnd(buf: string, isConnect: bool): (k: nat)
    ensures k <= |buf|
  {
    if isConnect then ServerEnd(buf, 0)
    else var i := AlphaEnd(buf, 0); if i == 0 || i + 3 > |buf| then i else ServerEnd(buf, i + 3)
  }

  lemma {:induction false} ServerEndIs(buf: string, from: nat, k: nat)
    requires from <= k <= |buf| && (forall i :: from <= i < k ==> IsServerChar(buf[i]))
    requires k < |buf| ==> !IsServerChar(buf[k])
    ensures ServerEnd(buf, from) == k
    decreases k - from
  {
    hide IsServerChar;
    if from < k {
      ServerEndIs(buf, from + 1, k);
    }
  }

  lemma {:induction false} AlphaEndIs(buf: string, from: nat, k: nat)
    requires from <= k < |buf| && (forall i :: from <= i < k ==> IsAlpha(buf[i])) && buf[k] == ':'
    ensures AlphaEnd(buf, from) == k
    decreases k - from
  {
    if from < k {
      AlphaEndIs(buf, from + 1, k);
    }
  }

  lemma AfterHead(path: string, t: Tail)
    requires ValidAfterAuthority(path, t)
    ensures var rest := Flatten(PathPieces(path, t)); rest != "" ==> !IsServerChar(rest[0])
  {
    PrintedPath(path, t);
    hide Flatten, PathPieces;
    if path == "" && t.query.Some? {
      var ps, qs := QueryPieces(t.query), FragmentPieces(t.fragment);
      FlattenConcat(ps, qs);
      DelimiterAndField("?", UfQuery, t.query.value, 0);
    } else if path == "" {
      NoPieces(0);
      assert TailPieces(t) == [];
    }
  }

  lemma HeadEndIs(scheme: Option<string>, a: string, path: string, t: Tail)
    requires scheme.Some? ==> scheme.value != "" && All(IsAlpha, scheme.value)
    requires All(IsServerChar, a) && ValidAfterAuthority(path, t)
    ensures HeadEnd(Flatten(RawPieces(scheme, a, path, t)), scheme.None?)
         == (if scheme.Some? then |scheme.value| + 3 else 0) + |a|
  {
    hide Flatten, PathPieces, RawPieces, IsServerChar, IsAlpha, ServerEnd, AlphaEnd, ValidAfterAuthority;
    PrintedRaw(scheme, a, path, t);
    AfterHead(path, t);
    var buf, rest := Flatten(RawPieces(scheme, a, path, t)), Flatten(PathPieces(path, t));
    if scheme.Some? {
      var n := |scheme.value|;
      assert buf == scheme.value + "://" + a + rest;
      AlphaEndIs(buf, 0, n);
      ServerEndIs(buf, n + 3, n + 3 + |a|);
    } else {
      assert buf == a + rest;
      ServerEndIs(buf, 0, |a|);
    }
  }

  lemma HeadLength(u: Url)
    ensures |Flatten(SchemePieces(u.scheme))| == if u.scheme.Some? then |u.scheme.value| + 3 else 0
  {
    hide Flatten;
    NoPieces(0);
    if u.scheme.Some? {
      FieldAndDelimiter(UfSchema, u.scheme.value, "://", 0);
    }
  }

  /** A tree's head fits exactly when that of its printed form does. */
  lemma HeadOfPrint(u: Url, isConnect: bool)
    requires Valid(u, isConnect) && u.authority.Some?
    ensures HeadFits(u) <==> HeadEnd(Print(u), isConnect) <= 0xFFFF
  {
    hide Flatten, PathPieces, RawPieces, Pieces, ValidAfterAuthority, ValidAuthority, AuthorityPieces, SchemePieces,
         HeadEnd, All, Print;
    TwoLayouts(u);
    HeadLength(u);
    AuthorityIsRaw(u.authority.value);
    HeadEndIs(u.scheme, Flatten(AuthorityPieces(u.authority.value)), u.path, u.tail);
  }

  /** A parse that passes the authority loop comes from a tree with a well-formed authority. */
  lemma HostedSound(buf: string, isConnect: bool, data: map<Field, Slice>) returns (u: Url)
    requires HeadEnd(buf, isConnect) <= 0xFFFF
    requires var sc := ScanRun(InitialScan(isConnect, data), 0, buf);
             && !sc.s.Dead? && UfHost in sc.fields
             && HostStage(buf, sc.foundAt, UrlInfo(sc.fields, 0, sc.data)).ok
    ensures Print(u) == buf && u.scheme.None? == isConnect
    ensures u.authority.Some? && ValidAuthority(u.authority.value) && ValidAfterAuthority(u.path, u.tail)
    ensures u.scheme.Some? ==> u.scheme.value != "" && All(IsAlpha, u.scheme.value)
    ensures HeadFits(u)
  {
    hide ScanRun, HostRun, HostStateRun, StateRun, Flatten, Place, RawPieces, All, ValidAuthority,
         ValidAfterAuthority, AuthorityPieces, PathPieces, SchemePieces, Print, HostAccepts, HeadEnd;
    var scheme, a, path, t := RawFormSound(buf, isConnect, data);
    PrintedRaw(scheme, a, path, t);
    HeadEndIs(scheme, a, path, t);
    var sc := ScanRun(InitialScan(isConnect, data), 0, buf);
    var n := if scheme.Some? then |scheme.value| + 3 else 0;
    RawHostSlice(scheme, a, path, t, data);
    assert Text(buf, Slice(n, |a|)) == a;
    var h := InitialHostScan(sc.foundAt, sc.fields, sc.data);
    HostFollowsStates(h, n, a);
    var auth := AuthoritySound(sc.foundAt, a);
    u := Url(scheme, Some(auth), path, t);
    TwoLayouts(u);
    HeadLength(u);
  }

  lemma RawHostPlace(scheme: Option<string>, a: string, path: string, t: Tail)
    requires a != ""
    ensures var placed := Place(RawPieces(scheme, a, path, t), 0);
            UfHost in placed && placed[UfHost] == Slice(if scheme.Some? then |scheme.value| + 3 else 0, |a|)
  {
    hide Flatten, Place, PathPieces, FieldsOf;
    var sps, raw, pps := SchemePieces(scheme), [Piece(Some(UfHost), a)], PathPieces(path, t);
    RawFields(scheme, a, path, t);
    NoPieces(0);
    if scheme.Some? {
      FieldAndDelimiter(UfSchema, scheme.value, "://", 0);
    }
    var n := |Flatten(sps)|;
    SinglePiece(raw[0], n);
    PlaceConcat(raw, pps, n);
    PlaceConcat(sps, raw + pps, 0);
    PlaceKeys(pps, n + |a|);
  }

  lemma RawHostSlice(scheme: Option<string>, a: string, path: string, t: Tail, data: map<Field, Slice>)
    requires scheme.Some? ==> scheme.value != "" && All(IsAlpha, scheme.value)
    requires a != "" && All(IsServerChar, a) && InServer(StateRun(ServerStart, a)) && ValidAfterAuthority(path, t)
    requires (if scheme.Some? then |scheme.value| + 3 else 0) + |a| <= 0xFFFF
    ensures var sc := ScanRun(InitialScan(scheme.None?, data), 0, Flatten(RawPieces(scheme, a, path, t)));
            At(sc.data, UfHost) == Slice(if scheme.Some? then |scheme.value| + 3 else 0, |a|)
  {
    hide ScanRun, StateRun, Flatten, Place, All, ValidAfterAuthority, RawPieces;
    ServerFormRun(scheme, a, path, t, data);
    RawHostPlace(scheme, a, path, t);
    var placed := Place(RawPieces(scheme, a, path, t), 0);
    assert Stored(placed)[UfHost] == Kept(placed[UfHost]);
  }

  /** What the first character of a URL without a scheme can be. */
  lemma PathFirst(data: map<Field, Slice>, c: char)
    ensures var first := ScanChar(InitialScan(false, data), 0, c);
            || first.s.Dead?
            || (first.s.Schema? && UfSchema in first.fields)
            || (first.s.Path? && IsUrlChar(c) && (c == '/' || c == '*'))
  {
  }

  lemma PathFormSound(buf: string, data: map<Field, Slice>) returns (u: Url)
    requires buf != ""
    requires var sc := ScanRun(InitialScan(false, data), 0, buf);
             !sc.s.Dead? && UfHost !in sc.fields && UfSchema !in sc.fields
    ensures ValidUrl(u) && u.authority.None? && Print(u) == buf
  {
    hide Flatten, StateRun, TailPieces, NextState, ScanChar, PathPieces, ValidTail, IsUrlChar;
    var first := ScanChar(InitialScan(false, data), 0, buf[0]);
    PathFirst(data, buf[0]);
    FieldsGrow(first, 1, buf[1..]);
    ScanFollowsStates(first, 1, buf[1..]);
    DeadStays(buf[1..]);
    var path, t := PathSound(buf[1..]);
    u := Url(None, None, [buf[0]] + path, t);
    PrintedPath(u.path, t);
    PiecesAre(u);
    NoScheme();
    assert Pieces(u) == PathPieces(u.path, t);
    assert buf == [buf[0]] + buf[1..];
  }

  lemma ParseSound(buf: string, isConnect: bool, before: UrlInfo) returns (u: Url)
    requires HeadEnd(buf, isConnect) <= 0xFFFF && Parse(buf, isConnect, before).ok
    ensures Valid(u, isConnect) && Print(u) == buf && HeadFits(u)
  {
    hide ScanRun, HostStage, PortStage, Print, ValidAuthority, ValidAfterAuthority, All, Records, Place, Pieces,
         HeadEnd, Stored, Flatten, AuthorityPieces, SchemePieces;
    var sc := ScanRun(InitialScan(isConnect, before.data), 0, buf);
    var scanned := UrlInfo(sc.fields, 0, sc.data);
    if UfHost !in sc.fields {
      NoHostStage(buf, sc.foundAt, scanned);
      u := PathFormSound(buf, before.data);
    } else {
      u := HostedSound(buf, isConnect, before.data);
      if isConnect {
        HostedParse(u, true, before);
        var hosted := HostStage(buf, sc.foundAt, scanned);
        RecordsExactlyWhen(hosted.info, Place(Pieces(u), 0));
        FieldsAreValues(u, hosted.info);
        assert Component(u, UfPort) != "" && Component(u, UfUserinfo) == "" && Component(u, UfPath) == ""
            && Component(u, UfQuery) == "" && Component(u, UfFragment) == "";
      }
    }
  }

  /** The parser accepts exactly the printed forms of well-formed trees whose port fits 16 bits.  Only
      the scheme and the authority have to end within the 16-bit range; path, query and fragment may
      be of any length. */
  lemma ExactAcceptance(buf: string, isConnect: bool, before: UrlInfo)
    requires HeadEnd(buf, isConnect) <= 0xFFFF
    ensures Parse(buf, isConnect, before).ok
       <==> exists u :: Valid(u, isConnect) && Print(u) == buf && PortNumber(u) <= 0xffff
  {
    hide Parse, Valid, Print, PortNumber, Records, HoldsTree, Pieces, Place, HeadEnd, HeadFits, Stored, AllFit;
    if Parse(buf, isConnect, before).ok {
      var u := ParseSound(buf, isConnect, before);
      RoundTrip(u, isConnect, before);
    }
    if u :| Valid(u, isConnect) && Print(u) == buf && PortNumber(u) <= 0xffff {
      TreeHeadFits(u, isConnect);
      RoundTrip(u, isConnect, before);
    }
  }

  lemma TreeHeadFits(u: Url, isConnect: bool)
    requires Valid(u, isConnect) && HeadEnd(Print(u), isConnect) <= 0xFFFF
    ensures HeadFits(u)
  {
    hide HeadEnd, Print, Flatten, AuthorityPieces, SchemePieces;
    if u.authority.Some? {
      HeadOfPrint(u, isConnect);
    }
  }

  /** Set fields are non-empty slices inside the buffer, in URL order without overlap, and all other
      characters are delimiters. */
  ghost predicate Tiles(buf: string, info: UrlInfo) {
    && (forall f <- info.fields :: InBuffer(At(info.data, f), buf) && At(info.data, f).len > 0)
    && (forall f, g :: f in info.fields && g in info.fields && Rank(f) < Rank(g) ==>
          At(info.data, f).off + At(info.data, f).len <= At(info.data, g).off)
    && (forall i :: 0 <= i < |buf| ==> Covered(info, i) || IsDelimiter(buf[i]))
  }

  ghost predicate Covered(info: UrlInfo, i: int) {
    exists f :: f in info.fields && At(info.data, f).off <= i < At(info.data, f).off + At(info.data, f).len
  }

  /** A record that points at the values of a tree tiles its printed form. */
  lemma RecordsTile(u: Url, info: UrlInfo)
    requires Records(info, Place(Pieces(u), 0))
    ensures Tiles(Print(u), info)
  {
    hide Pieces, Place, Flatten, Ordered, DelimitersOnly, IsDelimiter;
    var ps, buf := Pieces(u), Print(u);
    var placed := Place(ps, 0);
    PieceOrder(u);
    forall f <- info.fields
      ensures InBuffer(At(info.data, f), buf) && At(info.data, f).len > 0
    {
      PlacedText(ps, 0, f);
    }
    forall f, g | f in info.fields && g in info.fields && Rank(f) < Rank(g)
      ensures At(info.data, f).off + At(info.data, f).len <= At(info.data, g).off
    {
      PlacedInOrder(ps, 0, f, g);
    }
    forall i | 0 <= i < |buf|
      ensures Covered(info, i) || IsDelimiter(buf[i])
    {
      GapsAreDelimiters(ps, 0, i);
      if f :| Covers(placed, f, i) {
        assert f in info.fields;
      }
    }
  }

  /** Every successful parse of a tree's printed form tiles it when all offsets and lengths fit. */
  lemma Tiling(u: Url, isConnect: bool, before: UrlInfo)
    requires Valid(u, isConnect) && HeadFits(u) && AllFit(Place(Pieces(u), 0))
    requires Parse(Print(u), isConnect, before).ok
    ensures Tiles(Print(u), Parse(Print(u), isConnect, before).info)
  {
    hide Parse, Valid, Pieces, Place, Print, HoldsTree, AllFit, Stored, Tiles, HeadFits, Records;
    RoundTrip(u, isConnect, before);
    RecordsTile(u, Parse(Print(u), isConnect, before).info);
  }

  /** In particular every successful parse of at most 65535 bytes does. */
  lemma ShortBuffersTile(buf: string, isConnect: bool, before: UrlInfo)
    requires |buf| <= 0xFFFF && Parse(buf, isConnect, before).ok
    ensures Tiles(buf, Parse(buf, isConnect, before).info)
  {
    hide Parse, Valid, Pieces, Place, Print, AllFit, Tiles, HeadEnd, HeadFits;
    var u := ParseSound(buf, isConnect, before);
    ShortFits(u);
    Tiling(u, isConnect, before);
  }

  // ----- beyond 65535 bytes

  /** The shortest way out of the range: a bare path of any length is accepted, and its slice holds it
      if and only if the path is shorter than 65536 bytes. */
  lemma PathLengthWraps(path: string, before: UrlInfo)
    requires path != "" && All(IsUrlChar, path) && path[0] == '/'
    ensures var r := Parse(path, false, before);
            && r.ok && r.info.fields == {UfPath}
            && At(r.info.data, UfPath) == Slice(0, |path| % 0x1_0000)
            && (Text(path, At(r.info.data, UfPath)) == path <==> |path| <= 0xFFFF)
  {
    hide ScanRun;
    FieldRun(InitialScan(false, before.data), 0, path, Path, UfPath);
  }
}
