/** The first loop of the URL parser against the grammar: what it makes of every scheme, raw
    authority, path and tail (`ServerFormRun`, `PathFormRun`), and that nothing else survives it
    (`SchemaSound`, `ServerSound`, `PathSound`). */
module UrlScanProofs {
  import opened Wrappers
  import opened UrlChars
  import opened UrlParser
  import opened UrlGrammar

  // ----- runs

  function StateRun(s: State, w: string): State
    decreases |w|
  {
    if w == "" then s else StateRun(NextState(s, w[0]), w[1..])
  }

  predicate InServer(s: State) { s.ServerStart? || s.Server? || s.ServerWithAt? }

  lemma {:induction false} ScanConcat(sc: Scan, pos: nat, a: string, b: string)
    ensures ScanRun(sc, pos, a + b) == ScanRun(ScanRun(sc, pos, a), pos + |a|, b)
    decreases |a|
  {
    if a == "" {
      assert a + b == b;
    } else {
      assert (a + b)[1..] == a[1..] + b;
      ScanConcat(ScanChar(sc, pos, a[0]), pos + 1, a[1..], b);
    }
  }

  lemma {:induction false} ScanFollowsStates(sc: Scan, pos: nat, w: string)
    ensures ScanRun(sc, pos, w).s == StateRun(sc.s, w)
    decreases |w|
  {
    if w != "" {
      ScanFollowsStates(ScanChar(sc, pos, w[0]), pos + 1, w[1..]);
    }
  }

  lemma {:induction false} DeadStays(w: string)
    ensures StateRun(Dead, w) == Dead
  {
    if w != "" {
      DeadStays(w[1..]);
    }
  }

  // ----- one field

  /** A run of characters that stay in the field being read lengthens its slice. */
  lemma {:induction false} FieldExtends(sc: Scan, pos: nat, w: string, f: Field)
    requires FieldOf(sc.s) == Some(f) && sc.oldUf == Some(f) && !sc.s.ServerWithAt?
    requires forall i :: 0 <= i < |w| ==> NextState(sc.s, w[i]) == sc.s
    requires f in sc.data && 0 <= sc.data[f].len <= 0xFFFF
    ensures ScanRun(sc, pos, w) == sc.(data := Grown(sc.data, f, |w|))
    decreases |w|
  {
    if w == "" {
      assert Grown(sc.data, f, 0) == sc.data;
    } else {
      var next := ScanChar(sc, pos, w[0]);
      assert NextState(sc.s, w[0]) == sc.s;
      hide NextState;
      assert next == sc.(data := Grown(sc.data, f, 1));
      assert forall i :: 0 <= i < |w[1..]| ==> w[1..][i] == w[i + 1];
      FieldExtends(next, pos + 1, w[1..], f);
      GrownTwice(sc.data, f, |w| - 1);
    }
  }

  /** Entering a field and staying in it records exactly that run. */
  lemma FieldRun(sc: Scan, pos: nat, w: string, target: State, f: Field)
    requires w != "" && FieldOf(target) == Some(f) && !target.ServerWithAt?
    requires !sc.s.Dead? && sc.oldUf != Some(f)
    requires NextState(sc.s, w[0]) == target
    requires forall i :: 1 <= i < |w| ==> NextState(target, w[i]) == target
    ensures ScanRun(sc, pos, w)
         == sc.(s := target, oldUf := Some(f), fields := sc.fields + {f}, data := sc.data[f := Kept(Slice(pos, |w|))])
  {
    hide NextState;
    var next := ScanChar(sc, pos, w[0]);
    assert next == sc.(s := target, oldUf := Some(f), fields := sc.fields + {f},
                       data := sc.data[f := Slice(Wrap16(pos), 1)]);
    assert forall i :: 0 <= i < |w[1..]| ==> w[1..][i] == w[i + 1];
    FieldExtends(next, pos + 1, w[1..], f);
  }

  // ----- what a part of the URL does to the scan: it adds its placed fields

  ghost predicate Adds(sc: Scan, sc': Scan, placed: map<Field, Slice>) {
    && !sc'.s.Dead?
    && sc'.fields == sc.fields + placed.Keys
    && sc'.data == sc.data + Stored(placed)
  }

  lemma AddsOne(sc: Scan, sc': Scan, f: Field, slice: Slice)
    requires !sc'.s.Dead? && sc'.fields == sc.fields + {f} && sc'.data == sc.data[f := Kept(slice)]
    ensures Adds(sc, sc', map[f := slice])
  {
    StoredUpdate(sc.data, f, slice);
  }

  lemma AddsToNothing(sc: Scan, sc': Scan, placed: map<Field, Slice>)
    requires sc.fields == {} && Adds(sc, sc', placed)
    ensures !sc'.s.Dead? && sc'.fields == placed.Keys && sc'.data == sc.data + Stored(placed)
  {
  }

  lemma AddsNothing(sc: Scan, sc': Scan)
    requires !sc'.s.Dead? && sc'.fields == sc.fields && sc'.data == sc.data
    ensures Adds(sc, sc', map[])
  {
  }

  lemma {:induction false} HashesRun(sc: Scan, pos: nat, n: nat)
    requires sc.s.FragmentStart?
    ensures ScanRun(sc, pos, Hashes(n)) == sc
    decreases n
  {
    if n > 0 {
      assert Hashes(n)[1..] == Hashes(n - 1);
      HashesRun(sc, pos + 1, n - 1);
    }
  }

  lemma AddsCompose(sc: Scan, sc1: Scan, sc2: Scan, m1: map<Field, Slice>, m2: map<Field, Slice>)
    requires Adds(sc, sc1, m1) && Adds(sc1, sc2, m2)
    ensures Adds(sc, sc2, m1 + m2)
  {
    hide Stored;
    StoredMerge(m1, m2);
    MergeAssociates(sc.data, Stored(m1), Stored(m2));
  }

  lemma FragmentTextRun(sc: Scan, pos: nat, w: string)
    requires sc.s.FragmentStart? && sc.oldUf != Some(UfFragment)
    requires w != "" && All(IsFragmentChar, w) && w[0] != '#'
    ensures ScanRun(sc, pos, w)
         == sc.(s := Fragment, oldUf := Some(UfFragment), fields := sc.fields + {UfFragment},
                data := sc.data[UfFragment := Kept(Slice(pos, |w|))])
  {
    hide ScanRun;
    FieldRun(sc, pos, w, Fragment, UfFragment);
  }

  lemma FragmentRun(sc: Scan, pos: nat, part: Option<FragmentPart>)
    requires part.Some? ==> ValidFragment(part.value)
    requires part.Some? ==> sc.s.Path? || sc.s.QueryStart? || sc.s.Query?
    requires !sc.s.Dead? && sc.oldUf != Some(UfFragment)
    ensures Adds(sc, ScanRun(sc, pos, Flatten(FragmentPieces(part))), Place(FragmentPieces(part), pos))
    ensures ScanRun(sc, pos, Flatten(FragmentPieces(part))).foundAt == sc.foundAt
  {
    hide Flatten, Place, NextState, ScanRun, All, Adds;
    if part.None? {
      EmptyRun(sc, pos);
      AddsNothing(sc, sc);
    } else {
      var f := part.value;
      var hashes := Hashes(f.hashes);
      DelimiterAndField(hashes, UfFragment, f.text, pos);
      ScanConcat(sc, pos, hashes, f.text);
      FirstHash(sc, pos, f.hashes);
      if f.text != "" {
        FragmentTextRun(sc.(s := FragmentStart), pos + f.hashes, f.text);
        AddsOne(sc, ScanRun(sc, pos, hashes + f.text), UfFragment, Slice(pos + f.hashes, |f.text|));
      } else {
        EmptyRun(sc.(s := FragmentStart), pos + f.hashes);
        AddsNothing(sc, sc.(s := FragmentStart));
      }
    }
  }

  /** Without pieces nothing happens. */
  lemma EmptyRun(sc: Scan, pos: nat)
    ensures Flatten([]) == "" && Place([], pos) == map[] && ScanRun(sc, pos, "") == sc
    ensures sc.data + map[] == sc.data
  {
  }

  lemma FirstHash(sc: Scan, pos: nat, n: nat)
    requires n > 0 && (sc.s.Path? || sc.s.QueryStart? || sc.s.Query?)
    ensures ScanRun(sc, pos, Hashes(n)) == sc.(s := FragmentStart)
  {
    assert Hashes(n)[1..] == Hashes(n - 1);
    HashesRun(sc.(s := FragmentStart), pos + 1, n - 1);
  }

  lemma QuestionMark(sc: Scan, pos: nat)
    requires sc.s.Path? || InServer(sc.s)
    ensures ScanRun(sc, pos, "?") == sc.(s := QueryStart)
  {
    assert "?"[1..] == "";
  }

  lemma QueryTextRun(sc: Scan, pos: nat, w: string)
    requires sc.s.QueryStart? && sc.oldUf != Some(UfQuery)
    requires w != "" && All(IsQueryChar, w)
    ensures ScanRun(sc, pos, w)
         == sc.(s := Query, oldUf := Some(UfQuery), fields := sc.fields + {UfQuery},
                data := sc.data[UfQuery := Kept(Slice(pos, |w|))])
  {
    hide ScanRun;
    FieldRun(sc, pos, w, Query, UfQuery);
  }

  lemma QueryRun(sc: Scan, pos: nat, query: Option<string>)
    requires query.Some? ==> All(IsQueryChar, query.value)
    requires sc.s.Path? || InServer(sc.s)
    requires sc.oldUf != Some(UfQuery) && sc.oldUf != Some(UfFragment)
    ensures Adds(sc, ScanRun(sc, pos, Flatten(QueryPieces(query))), Place(QueryPieces(query), pos))
    ensures var sc' := ScanRun(sc, pos, Flatten(QueryPieces(query)));
            && sc'.foundAt == sc.foundAt && sc'.oldUf != Some(UfFragment)
            && (if query.Some? then sc'.s.QueryStart? || sc'.s.Query? else sc'.s == sc.s)
  {
    hide Flatten, Place, NextState, ScanRun, All, Adds;
    if query.None? {
      EmptyRun(sc, pos);
      AddsNothing(sc, sc);
    } else {
      var q := query.value;
      DelimiterAndField("?", UfQuery, q, pos);
      ScanConcat(sc, pos, "?", q);
      QuestionMark(sc, pos);
      if q != "" {
        QueryTextRun(sc.(s := QueryStart), pos + 1, q);
        AddsOne(sc, ScanRun(sc, pos, "?" + q), UfQuery, Slice(pos + 1, |q|));
      } else {
        EmptyRun(sc.(s := QueryStart), pos + 1);
        AddsNothing(sc, sc.(s := QueryStart));
      }
    }
  }

  lemma TailRun(sc: Scan, pos: nat, t: Tail)
    requires ValidTail(t)
    requires sc.s.Path? || (InServer(sc.s) && (t.fragment.Some? ==> t.query.Some?))
    requires sc.oldUf != Some(UfQuery) && sc.oldUf != Some(UfFragment)
    ensures Adds(sc, ScanRun(sc, pos, Flatten(TailPieces(t))), Place(TailPieces(t), pos))
    ensures ScanRun(sc, pos, Flatten(TailPieces(t))).foundAt == sc.foundAt
  {
    hide ScanRun, Flatten, Place, Adds, FieldsOf, QueryPieces, FragmentPieces, ValidFragment, All;
    TailFields(t);
    var ps, qs := QueryPieces(t.query), FragmentPieces(t.fragment);
    FlattenConcat(ps, qs);
    PlaceConcat(ps, qs, pos);
    ScanConcat(sc, pos, Flatten(ps), Flatten(qs));
    QueryRun(sc, pos, t.query);
    var sc1 := ScanRun(sc, pos, Flatten(ps));
    AddsLives(sc, sc1, Place(ps, pos));
    FragmentRun(sc1, pos + |Flatten(ps)|, t.fragment);
    var n := pos + |Flatten(ps)|;
    AddsCompose(sc, sc1, ScanRun(sc1, n, Flatten(qs)), Place(ps, pos), Place(qs, n));
  }

  lemma AddsLives(sc: Scan, sc': Scan, m: map<Field, Slice>)
    requires Adds(sc, sc', m)
    ensures !sc'.s.Dead?
  {
  }

  /** A path and its tail, entered from the start of the URL or from the authority. */
  lemma PathRun(sc: Scan, pos: nat, path: string, t: Tail)
    requires ValidTail(t) && All(IsUrlChar, path)
    requires path != "" ==> path[0] == '/' || (path[0] == '*' && sc.s.Start?)
    requires if path == "" then InServer(sc.s) && (t.fragment.Some? ==> t.query.Some?)
             else sc.s.Start? || InServer(sc.s)
    requires sc.oldUf != Some(UfPath) && sc.oldUf != Some(UfQuery) && sc.oldUf != Some(UfFragment)
    ensures Adds(sc, ScanRun(sc, pos, Flatten(PathPieces(path, t))), Place(PathPieces(path, t), pos))
    ensures ScanRun(sc, pos, Flatten(PathPieces(path, t))).foundAt == sc.foundAt
  {
    hide ScanRun, Flatten, Place, Adds, TailPieces, All, ValidTail;
    var ps, qs := [Piece(Some(UfPath), path)], TailPieces(t);
    TailFields(t);
    FlattenConcat(ps, qs);
    PlaceConcat(ps, qs, pos);
    SinglePiece(ps[0], pos);
    PathStart(sc, pos, path);
    ScanConcat(sc, pos, path, Flatten(qs));
    var sc1 := ScanRun(sc, pos, path);
    TailRun(sc1, pos + |path|, t);
    AddsCompose(sc, sc1, ScanRun(sc1, pos + |path|, Flatten(qs)), Place(ps, pos), Place(qs, pos + |path|));
  }

  lemma TailFields(t: Tail)
    ensures FieldsOf(TailPieces(t)) <= {UfQuery, UfFragment}
    ensures FieldsOf(QueryPieces(t.query)) !! FieldsOf(FragmentPieces(t.fragment))
  {
  }

  lemma PathStart(sc: Scan, pos: nat, path: string)
    requires All(IsUrlChar, path) && sc.oldUf != Some(UfPath)
    requires path != "" ==> path[0] == '/' || (path[0] == '*' && sc.s.Start?)
    requires sc.s.Start? || InServer(sc.s)
    ensures Adds(sc, ScanRun(sc, pos, path), Place([Piece(Some(UfPath), path)], pos))
    ensures var sc' := ScanRun(sc, pos, path);
            if path == "" then sc' == sc
            else sc'.s.Path? && sc'.oldUf == Some(UfPath) && sc'.foundAt == sc.foundAt
  {
    hide ScanRun, Flatten, Place, Adds;
    SinglePiece(Piece(Some(UfPath), path), pos);
    if path != "" {
      FieldRun(sc, pos, path, Path, UfPath);
      AddsOne(sc, ScanRun(sc, pos, path), UfPath, Slice(pos, |path|));
    } else {
      EmptyRun(sc, pos);
      AddsNothing(sc, sc);
    }
  }

  // ----- the raw authority

  lemma ServerStep(s: State, c: char)
    requires InServer(s) && IsServerChar(c)
    ensures NextState(s, c) == if c == '@' then (if s.ServerWithAt? then Dead else ServerWithAt) else Server
  {
  }

  /** One character of the authority. */
  lemma ServerChar(sc: Scan, pos: nat, a: string)
    requires sc.s.Server? || sc.s.ServerWithAt?
    requires a != "" && All(IsServerChar, a) && InServer(StateRun(sc.s, a))
    requires sc.oldUf == Some(UfHost) && UfHost in sc.data
    ensures ScanChar(sc, pos, a[0])
         == sc.(s := if a[0] == '@' then ServerWithAt else Server, foundAt := sc.foundAt || a[0] == '@',
                data := Grown(sc.data, UfHost, 1))
    ensures NextState(sc.s, a[0]) == if a[0] == '@' then ServerWithAt else Server
  {
    hide NextState, IsServerChar;
    ServerStep(sc.s, a[0]);
    DeadStays(a[1..]);
  }

  lemma {:induction false} ServerExtends(sc: Scan, pos: nat, a: string)
    requires sc.s.Server? || sc.s.ServerWithAt?
    requires sc.oldUf == Some(UfHost) && UfHost in sc.data && 0 <= sc.data[UfHost].len <= 0xFFFF
    requires All(IsServerChar, a) && InServer(StateRun(sc.s, a))
    ensures ScanRun(sc, pos, a)
         == sc.(s := StateRun(sc.s, a), foundAt := sc.foundAt || '@' in a, data := Grown(sc.data, UfHost, |a|))
    ensures !StateRun(sc.s, a).ServerStart?
    decreases |a|
  {
    if a == "" {
      assert Grown(sc.data, UfHost, 0) == sc.data;
    } else {
      ServerChar(sc, pos, a);
      GrownTwice(sc.data, UfHost, |a| - 1);
      hide NextState, IsServerChar, ScanChar;
      var next := ScanChar(sc, pos, a[0]);
      assert a == [a[0]] + a[1..];
      assert '@' in a <==> a[0] == '@' || '@' in a[1..];
      ServerExtends(next, pos + 1, a[1..]);
    }
  }

  lemma ServerRun(sc: Scan, pos: nat, a: string)
    requires a != "" && sc.s.ServerStart? && sc.oldUf != Some(UfHost)
    requires All(IsServerChar, a) && InServer(StateRun(sc.s, a))
    ensures ScanRun(sc, pos, a)
         == sc.(s := StateRun(sc.s, a), oldUf := Some(UfHost), foundAt := sc.foundAt || '@' in a,
                fields := sc.fields + {UfHost}, data := sc.data[UfHost := Kept(Slice(pos, |a|))])
  {
    hide NextState, IsServerChar;
    ServerStep(sc.s, a[0]);
    DeadStays(a[1..]);
    assert a == [a[0]] + a[1..];
    ServerExtends(ScanChar(sc, pos, a[0]), pos + 1, a[1..]);
  }

  lemma SchemeRun(sc: Scan, scheme: string)
    requires sc.s.Start? && sc.oldUf.None? && scheme != "" && All(IsAlpha, scheme)
    ensures ScanRun(sc, 0, scheme + "://")
         == sc.(s := ServerStart, oldUf := Some(UfSchema), fields := sc.fields + {UfSchema},
                data := sc.data[UfSchema := Kept(Slice(0, |scheme|))])
  {
    hide ScanRun;
    ScanConcat(sc, 0, scheme, "://");
    FieldRun(sc, 0, scheme, Schema, UfSchema);
    SchemeEnd(ScanRun(sc, 0, scheme), |scheme|);
  }

  lemma SchemeEnd(sc: Scan, pos: nat)
    requires sc.s.Schema?
    ensures ScanRun(sc, pos, "://") == sc.(s := ServerStart)
  {
    assert "://"[1..] == "//" && "//"[1..] == "/" && "/"[1..] == "";
    assert ScanRun(sc, pos, "://") == ScanRun(sc.(s := SchemaSlash), pos + 1, "//");
    assert ScanRun(sc.(s := SchemaSlash), pos + 1, "//") == ScanRun(sc.(s := SchemaSlashSlash), pos + 2, "/");
  }

  /** The pieces the first loop distinguishes: it takes the authority as one raw field. */
  function RawPieces(scheme: Option<string>, a: string, path: string, t: Tail): seq<Piece> {
    SchemePieces(scheme) + ([Piece(Some(UfHost), a)] + PathPieces(path, t))
  }

  lemma RawFields(scheme: Option<string>, a: string, path: string, t: Tail)
    ensures FieldsOf(SchemePieces(scheme)) <= {UfSchema}
    ensures FieldsOf([Piece(Some(UfHost), a)]) == {UfHost}
    ensures FieldsOf(PathPieces(path, t)) <= {UfPath, UfQuery, UfFragment}
    ensures FieldsOf([Piece(Some(UfHost), a)] + PathPieces(path, t)) <= {UfHost, UfPath, UfQuery, UfFragment}
  {
    TailFields(t);
    FieldsConcat([Piece(Some(UfPath), path)], TailPieces(t));
    FieldsConcat([Piece(Some(UfHost), a)], PathPieces(path, t));
  }

  lemma FieldsConcat(ps: seq<Piece>, qs: seq<Piece>)
    ensures FieldsOf(ps + qs) == FieldsOf(ps) + FieldsOf(qs)
  {
    assert forall p :: p in ps + qs <==> p in ps || p in qs;
  }

  lemma AuthorityAndPathRun(sc: Scan, pos: nat, a: string, path: string, t: Tail)
    requires sc.s.ServerStart? && sc.oldUf != Some(UfHost)
    requires sc.oldUf != Some(UfPath) && sc.oldUf != Some(UfQuery) && sc.oldUf != Some(UfFragment)
    requires a != "" && All(IsServerChar, a) && InServer(StateRun(ServerStart, a))
    requires ValidAfterAuthority(path, t)
    ensures var ps := [Piece(Some(UfHost), a)] + PathPieces(path, t);
            var sc' := ScanRun(sc, pos, Flatten(ps));
            Adds(sc, sc', Place(ps, pos)) && sc'.foundAt == (sc.foundAt || '@' in a)
  {
    hide ScanRun, StateRun, Flatten, Place, FieldsOf, PathPieces, All, ValidTail, Adds, Stored;
    var aps, pps := [Piece(Some(UfHost), a)], PathPieces(path, t);
    RawFields(None, a, path, t);
    FlattenConcat(aps, pps);
    PlaceConcat(aps, pps, pos);
    SinglePiece(aps[0], pos);
    ScanConcat(sc, pos, a, Flatten(pps));
    ServerRun(sc, pos, a);
    var sc1 := ScanRun(sc, pos, a);
    AddsOne(sc, sc1, UfHost, Slice(pos, |a|));
    PathRun(sc1, pos + |a|, path, t);
    AddsCompose(sc, sc1, ScanRun(sc1, pos + |a|, Flatten(pps)), Place(aps, pos), Place(pps, pos + |a|));
  }

  /** The first loop on any URL with an authority, of any length, records exactly the raw pieces, in
      16 bits. */
  lemma ServerFormRun(scheme: Option<string>, a: string, path: string, t: Tail, data: map<Field, Slice>)
    requires scheme.Some? ==> scheme.value != "" && All(IsAlpha, scheme.value)
    requires a != "" && All(IsServerChar, a) && InServer(StateRun(ServerStart, a))
    requires ValidAfterAuthority(path, t)
    ensures var ps := RawPieces(scheme, a, path, t);
            var sc := ScanRun(InitialScan(scheme.None?, data), 0, Flatten(ps));
            && !sc.s.Dead? && sc.fields == Place(ps, 0).Keys && sc.data == data + Stored(Place(ps, 0))
            && sc.foundAt == ('@' in a)
  {
    hide ScanRun, StateRun, Flatten, Place, FieldsOf, PathPieces, All, ValidAfterAuthority, Adds, Stored;
    var sps, rps := SchemePieces(scheme), [Piece(Some(UfHost), a)] + PathPieces(path, t);
    RawFields(scheme, a, path, t);
    FlattenConcat(sps, rps);
    PlaceConcat(sps, rps, 0);
    var sc0 := InitialScan(scheme.None?, data);
    var n := |Flatten(sps)|;
    ScanConcat(sc0, 0, Flatten(sps), Flatten(rps));
    var sc1 := ScanRun(sc0, 0, Flatten(sps));
    if scheme.Some? {
      FieldAndDelimiter(UfSchema, scheme.value, "://", 0);
      SchemeRun(sc0, scheme.value);
      AddsOne(sc0, sc1, UfSchema, Slice(0, |scheme.value|));
    } else {
      EmptyRun(sc0, 0);
      AddsNothing(sc0, sc0);
    }
    AuthorityAndPathRun(sc1, n, a, path, t);
    AddsCompose(sc0, sc1, ScanRun(sc1, n, Flatten(rps)), Place(sps, 0), Place(rps, n));
    AddsToNothing(sc0, ScanRun(sc1, n, Flatten(rps)), Place(sps, 0) + Place(rps, n));
  }

  /** The first loop on a URL of any length that starts with its path. */
  lemma PathFormRun(path: string, t: Tail, data: map<Field, Slice>)
    requires ValidTail(t) && All(IsUrlChar, path) && path != "" && (path[0] == '/' || path[0] == '*')
    ensures var ps := PathPieces(path, t);
            var sc := ScanRun(InitialScan(false, data), 0, Flatten(ps));
            !sc.s.Dead? && sc.fields == Place(ps, 0).Keys && sc.data == data + Stored(Place(ps, 0))
  {
    hide ScanRun, Flatten, Place, PathPieces, All;
    PathRun(InitialScan(false, data), 0, path, t);
  }

  // ----- soundness: what survives has this shape

  /** What keeps the automaton alive in each of its reading states. */
  lemma QueryStep(s: State, c: char)
    requires (s.QueryStart? || s.Query?) && !NextState(s, c).Dead?
    ensures if c == '#' then NextState(s, c).FragmentStart? else IsQueryChar(c) && NextState(s, c).Query?
  {
  }

  lemma PathStep(c: char)
    requires !NextState(Path, c).Dead?
    ensures if c == '?' then NextState(Path, c).QueryStart?
            else if c == '#' then NextState(Path, c).FragmentStart?
            else IsUrlChar(c) && NextState(Path, c).Path?
  {
  }

  lemma AuthorityStep(s: State, c: char)
    requires InServer(s) && !NextState(s, c).Dead?
    ensures if c == '/' then NextState(s, c).Path?
            else if c == '?' then NextState(s, c).QueryStart?
            else IsServerChar(c) && InServer(NextState(s, c)) && !NextState(s, c).ServerStart?
  {
  }

  /** A run that survives survived its first character. */
  lemma LiveStep(s: State, w: string)
    requires w != "" && !StateRun(s, w).Dead?
    ensures !NextState(s, w[0]).Dead? && StateRun(s, w) == StateRun(NextState(s, w[0]), w[1..])
  {
    DeadStays(w[1..]);
  }

  lemma {:induction false} FragmentTextSound(w: string)
    requires !StateRun(Fragment, w).Dead?
    ensures All(IsFragmentChar, w)
  {
    if w != "" {
      DeadStays(w[1..]);
      FragmentTextSound(w[1..]);
    }
  }

  lemma FragmentStep(c: char)
    ensures NextState(FragmentStart, c)
         == if c == '#' then FragmentStart else if IsFragmentChar(c) then Fragment else Dead
  {
  }

  lemma {:induction false} FragmentSound(w: string) returns (part: FragmentPart)
    requires !StateRun(FragmentStart, w).Dead?
    ensures "#" + w == Flatten(FragmentPieces(Some(part))) && ValidFragment(part)
  {
    hide Flatten, NextState, IsFragmentChar;
    if w == "" || w[0] != '#' {
      part := FragmentPart(1, w);
      if w != "" {
        FragmentStep(w[0]);
        DeadStays(w[1..]);
        FragmentTextSound(w[1..]);
      }
      assert Hashes(1) == "#";
    } else {
      FragmentStep('#');
      var rest := FragmentSound(w[1..]);
      part := FragmentPart(rest.hashes + 1, rest.text);
      DelimiterAndField(Hashes(rest.hashes), UfFragment, rest.text, 0);
      assert Hashes(part.hashes) == "#" + Hashes(rest.hashes);
      assert w == "#" + w[1..] == Hashes(rest.hashes) + rest.text;
    }
    DelimiterAndField(Hashes(part.hashes), UfFragment, part.text, 0);
  }

  lemma {:induction false} QuerySound(s: State, w: string) returns (q: string, part: Option<FragmentPart>)
    requires s.QueryStart? || s.Query?
    requires !StateRun(s, w).Dead?
    ensures w == q + Flatten(FragmentPieces(part)) && All(IsQueryChar, q)
    ensures part.Some? ==> ValidFragment(part.value)
    decreases |w|
  {
    hide NextState, StateRun, Flatten, IsQueryChar, ValidFragment;
    if w == "" {
      q, part := "", None;
      EmptyRun(InitialScan(false, map[]), 0);
    } else {
      LiveStep(s, w);
      QueryStep(s, w[0]);
      assert w == [w[0]] + w[1..];
      if w[0] == '#' {
        var f := FragmentSound(w[1..]);
        q, part := "", Some(f);
      } else {
        q, part := QuerySound(Query, w[1..]);
        q := [w[0]] + q;
      }
    }
  }

  lemma PrintedTail(t: Tail)
    ensures Flatten(TailPieces(t))
         == (if t.query.Some? then "?" + t.query.value else "") + Flatten(FragmentPieces(t.fragment))
  {
    hide Flatten, FragmentPieces;
    FlattenConcat(QueryPieces(t.query), FragmentPieces(t.fragment));
    if t.query.Some? {
      DelimiterAndField("?", UfQuery, t.query.value, 0);
    } else {
      EmptyRun(InitialScan(false, map[]), 0);
    }
  }

  lemma {:induction false} PathSound(w: string) returns (path: string, t: Tail)
    requires !StateRun(Path, w).Dead?
    ensures w == path + Flatten(TailPieces(t)) && All(IsUrlChar, path) && ValidTail(t)
    decreases |w|
  {
    hide NextState, StateRun, Flatten, TailPieces, IsUrlChar, ValidFragment;
    if w == "" {
      path, t := "", Tail(None, None);
      EmptyRun(InitialScan(false, map[]), 0);
    } else {
      LiveStep(Path, w);
      PathStep(w[0]);
      assert w == [w[0]] + w[1..];
      if w[0] == '?' {
        var q, part := QuerySound(QueryStart, w[1..]);
        path, t := "", Tail(Some(q), part);
      } else if w[0] == '#' {
        var f := FragmentSound(w[1..]);
        path, t := "", Tail(None, Some(f));
      } else {
        path, t := PathSound(w[1..]);
        path := [w[0]] + path;
      }
    }
    PrintedTail(t);
  }

  lemma PrintedPath(path: string, t: Tail)
    ensures Flatten(PathPieces(path, t)) == path + Flatten(TailPieces(t))
  {
    hide Flatten, TailPieces;
    SinglePiece(Piece(Some(UfPath), path), 0);
    FlattenConcat([Piece(Some(UfPath), path)], TailPieces(t));
  }

  lemma {:induction false} ServerSound(s: State, w: string) returns (a: string, path: string, t: Tail)
    requires InServer(s) && !StateRun(s, w).Dead?
    ensures w == a + Flatten(PathPieces(path, t)) && ValidAfterAuthority(path, t)
    ensures All(IsServerChar, a) && InServer(StateRun(s, a))
    decreases |w|
  {
    hide NextState, Flatten, TailPieces, PathPieces, ValidTail, IsServerChar, IsUrlChar;
    if w == "" {
      a, path, t := "", "", Tail(None, None);
      EmptyRun(InitialScan(false, map[]), 0);
      NothingFollows();
    } else {
      LiveStep(s, w);
      AuthorityStep(s, w[0]);
      assert w == [w[0]] + w[1..];
      if w[0] == '/' {
        path, t := PathSound(w[1..]);
        a, path := "", "/" + path;
        SlashIsUrlChar();
      } else if w[0] == '?' {
        var q, part := QuerySound(QueryStart, w[1..]);
        a, path, t := "", "", Tail(Some(q), part);
        TailIsValid(q, part);
      } else {
        a, path, t := ServerSound(NextState(s, w[0]), w[1..]);
        assert ([w[0]] + a)[1..] == a;
        a := [w[0]] + a;
      }
    }
    PrintedTail(t);
    PrintedPath(path, t);
  }

  lemma NothingFollows()
    ensures ValidTail(Tail(None, None))
  {
  }

  lemma SlashIsUrlChar()
    ensures IsUrlChar('/')
  {
  }

  lemma TailIsValid(q: string, part: Option<FragmentPart>)
    requires All(IsQueryChar, q) && (part.Some? ==> ValidFragment(part.value))
    ensures ValidTail(Tail(Some(q), part))
  {
  }

  predicate PastServer(s: State) {
    s.Path? || s.QueryStart? || s.Query? || s.FragmentStart? || s.Fragment? || s.Dead?
  }

  lemma {:induction false} NoHostPastServer(sc: Scan, pos: nat, w: string)
    requires PastServer(sc.s) && UfHost !in sc.fields
    ensures UfHost !in ScanRun(sc, pos, w).fields
    decreases |w|
  {
    if w != "" {
      NoHostPastServer(ScanChar(sc, pos, w[0]), pos + 1, w[1..]);
    }
  }

  /** Behind "scheme://" a surviving URL with a host field has a non-empty raw authority. */
  lemma HostNeedsAuthority(sc: Scan, pos: nat, w: string) returns (a: string, path: string, t: Tail)
    requires sc.s.ServerStart? && UfHost !in sc.fields
    requires !ScanRun(sc, pos, w).s.Dead? && UfHost in ScanRun(sc, pos, w).fields
    ensures w == a + Flatten(PathPieces(path, t)) && ValidAfterAuthority(path, t)
    ensures a != "" && All(IsServerChar, a) && InServer(StateRun(ServerStart, a))
  {
    hide NextState, Flatten, TailPieces, PathPieces, ValidTail, StateRun, IsServerChar, All;
    ScanFollowsStates(sc, pos, w);
    a, path, t := ServerSound(ServerStart, w);
    PrintedPath(path, t);
    PrintedTail(t);
    if a == "" {
      EmptyRun(sc, pos);
      assert w != "" && (w[0] == '/' || w[0] == '?');
      LeavingServer(sc, pos, w[0]);
      NoHostPastServer(ScanChar(sc, pos, w[0]), pos + 1, w[1..]);
    }
  }

  lemma LeavingServer(sc: Scan, pos: nat, c: char)
    requires sc.s.ServerStart? && (c == '/' || c == '?') && UfHost !in sc.fields
    ensures PastServer(ScanChar(sc, pos, c).s) && UfHost !in ScanChar(sc, pos, c).fields
  {
  }

  /** Behind the ':' of a scheme, a surviving URL with a host field goes on with "//". */
  lemma SlashesSound(sc: Scan, pos: nat, w: string)
    requires sc.s.SchemaSlash? && UfHost !in sc.fields
    requires !ScanRun(sc, pos, w).s.Dead? && UfHost in ScanRun(sc, pos, w).fields
    ensures |w| >= 2 && w[..2] == "//"
    ensures ScanRun(sc, pos, w) == ScanRun(sc.(s := ServerStart), pos + 2, w[2..])
  {
    DeadScanStays(sc.(s := Dead), pos + 1, w[1..]);
    var rest := w[1..];
    assert w[0] == '/' && ScanRun(sc, pos, w) == ScanRun(sc.(s := SchemaSlashSlash), pos + 1, rest);
    assert rest != "";
    DeadScanStays(sc.(s := Dead), pos + 2, rest[1..]);
    assert rest[0] == '/' && rest[1..] == w[2..];
  }

  lemma SchemaStep(sc: Scan, pos: nat, c: char)
    requires sc.s.Schema? && UfHost !in sc.fields && !NextState(Schema, c).Dead?
    ensures if c == ':' then ScanChar(sc, pos, c) == sc.(s := SchemaSlash)
            else IsAlpha(c) && ScanChar(sc, pos, c).s.Schema? && UfHost !in ScanChar(sc, pos, c).fields
  {
  }

  lemma {:induction false} SchemaSound(sc: Scan, pos: nat, w: string)
      returns (scheme: string, a: string, path: string, t: Tail)
    requires sc.s.Schema? && UfHost !in sc.fields
    requires !ScanRun(sc, pos, w).s.Dead? && UfHost in ScanRun(sc, pos, w).fields
    ensures w == scheme + "://" + a + Flatten(PathPieces(path, t)) && ValidAfterAuthority(path, t)
    ensures All(IsAlpha, scheme)
    ensures a != "" && All(IsServerChar, a) && InServer(StateRun(ServerStart, a))
    decreases |w|
  {
    hide NextState, ScanChar, Flatten, PathPieces, ValidAfterAuthority, StateRun, IsServerChar, IsAlpha;
    ScanFollowsStates(sc, pos, w);
    LiveStep(Schema, w);
    SchemaStep(sc, pos, w[0]);
    assert w == [w[0]] + w[1..];
    if w[0] == ':' {
      SlashesSound(sc.(s := SchemaSlash), pos + 1, w[1..]);
      var rest := w[1..][2..];
      assert w == "://" + rest;
      scheme := "";
      a, path, t := HostNeedsAuthority(sc.(s := ServerStart), pos + 3, rest);
    } else {
      scheme, a, path, t := SchemaSound(ScanChar(sc, pos, w[0]), pos + 1, w[1..]);
      scheme := [w[0]] + scheme;
    }
  }
}
