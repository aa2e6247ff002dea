/** The language of the URL parser, stated without the automata.

    A URL is a tree (`Url`); `Pieces` lays it out as a sequence of texts, each either the value of
    a field or a delimiter, and `Print` is their concatenation.  `Place` computes where each
    field's value lies from the lengths alone. */
module UrlGrammar {
  import opened Wrappers
  import opened UrlChars
  import opened UrlParser

  datatype HostName = RegName(name: string) | V6Literal(address: string, zone: Option<string>)

  datatype Authority = Authority(userinfo: Option<string>, host: HostName, port: Option<string>)

  /** A fragment with the '#' characters in front of it: the parser allows several. */
  datatype FragmentPart = FragmentPart(hashes: nat, text: string)

  datatype Tail = Tail(query: Option<string>, fragment: Option<FragmentPart>)

  datatype Url = Url(scheme: Option<string>, authority: Option<Authority>, path: string, tail: Tail)

  // ----- well-formed trees

  predicate ValidHost(h: HostName) {
    match h
    case RegName(name) => name != "" && All(IsHostChar, name)
    case V6Literal(address, zone) =>
      && address != "" && All(IsV6Char, address)
      && (zone.Some? ==> zone.value != "" && All(IsZoneChar, zone.value))
  }

  predicate ValidAuthority(a: Authority) {
    && (a.userinfo.Some? ==> All(IsUserinfoChar, a.userinfo.value))
    && ValidHost(a.host)
    && (a.port.Some? ==> a.port.value != "" && All(IsNum, a.port.value))
  }

  predicate ValidFragment(f: FragmentPart) {
    f.hashes > 0 && All(IsFragmentChar, f.text) && (f.text != "" ==> f.text[0] != '#')
  }

  predicate ValidTail(t: Tail) {
    && (t.query.Some? ==> All(IsQueryChar, t.query.value))
    && (t.fragment.Some? ==> ValidFragment(t.fragment.value))
  }

  /** After an authority the path is absent or starts with '/', and without a path a fragment
      needs a '?' in front of it. */
  predicate ValidAfterAuthority(path: string, t: Tail) {
    && ValidTail(t) && All(IsUrlChar, path)
    && (path != "" ==> path[0] == '/')
    && (path == "" && t.fragment.Some? ==> t.query.Some?)
  }

  predicate ValidUrl(u: Url) {
    match u.authority
    case None =>
      && u.scheme.None?
      && ValidTail(u.tail) && All(IsUrlChar, u.path)
      && u.path != "" && (u.path[0] == '/' || u.path[0] == '*')
    case Some(a) =>
      && u.scheme.Some? && u.scheme.value != "" && All(IsAlpha, u.scheme.value)
      && ValidAuthority(a)
      && ValidAfterAuthority(u.path, u.tail)
  }

  /** The target of a CONNECT request: a host and a port and no other value.  Delimiters of absent
      values ("@", "?", "#") are tolerated. */
  predicate ValidConnect(u: Url) {
    && u.scheme.None? && u.authority.Some? && u.path == ""
    && ValidAuthority(u.authority.value) && ValidAfterAuthority(u.path, u.tail)
    && u.authority.value.port.Some?
    && (u.authority.value.userinfo.Some? ==> u.authority.value.userinfo.value == "")
    && (u.tail.query.Some? ==> u.tail.query.value == "")
    && (u.tail.fragment.Some? ==> u.tail.fragment.value.text == "")
  }

  predicate Valid(u: Url, isConnect: bool) {
    if isConnect then ValidConnect(u) else ValidUrl(u)
  }

  // ----- the port's value

  /** The number a digit string denotes, positionally. */
  function Decimal(digits: string): int {
    if digits == "" then 0
    else Decimal(digits[..|digits| - 1]) * 10 + (digits[|digits| - 1] as int - '0' as int)
  }

  function PortNumber(u: Url): int {
    if u.authority.Some? && u.authority.value.port.Some? then Decimal(u.authority.value.port.value) else 0
  }

  // ----- layout

  datatype Piece = Piece(field: Option<Field>, text: string)

  function Flatten(ps: seq<Piece>): string {
    if ps == [] then "" else ps[0].text + Flatten(ps[1..])
  }

  /** Where the non-empty field values lie when the pieces are written from `pos` on. */
  function Place(ps: seq<Piece>, pos: nat): map<Field, Slice> {
    if ps == [] then map[] else
    var rest := Place(ps[1..], pos + |ps[0].text|);
    if ps[0].field.Some? && ps[0].text != "" then rest[ps[0].field.value := Slice(pos, |ps[0].text|)] else rest
  }

  function Hashes(n: nat): string { seq(n, _ => '#') }

  function ZoneText(zone: Option<string>): string {
    if zone.Some? then "%" + zone.value else ""
  }

  function UserinfoPieces(userinfo: Option<string>): seq<Piece> {
    if userinfo.Some? then [Piece(Some(UfUserinfo), userinfo.value), Piece(None, "@")] else []
  }

  function HostPieces(h: HostName): seq<Piece> {
    match h
    case RegName(name) => [Piece(Some(UfHost), name)]
    case V6Literal(address, zone) =>
      [Piece(None, "["), Piece(Some(UfHost), address + ZoneText(zone)), Piece(None, "]")]
  }

  function PortPieces(port: Option<string>): seq<Piece> {
    if port.Some? then [Piece(None, ":"), Piece(Some(UfPort), port.value)] else []
  }

  function AuthorityPieces(a: Authority): seq<Piece> {
    UserinfoPieces(a.userinfo) + HostPieces(a.host) + PortPieces(a.port)
  }

  function SchemePieces(scheme: Option<string>): seq<Piece> {
    if scheme.Some? then [Piece(Some(UfSchema), scheme.value), Piece(None, "://")] else []
  }

  function QueryPieces(query: Option<string>): seq<Piece> {
    if query.Some? then [Piece(None, "?"), Piece(Some(UfQuery), query.value)] else []
  }

  function FragmentPieces(f: Option<FragmentPart>): seq<Piece> {
    if f.Some? then [Piece(None, Hashes(f.value.hashes)), Piece(Some(UfFragment), f.value.text)] else []
  }

  function TailPieces(t: Tail): seq<Piece> {
    QueryPieces(t.query) + FragmentPieces(t.fragment)
  }

  function PathPieces(path: string, t: Tail): seq<Piece> {
    [Piece(Some(UfPath), path)] + TailPieces(t)
  }

  function Pieces(u: Url): seq<Piece> {
    SchemePieces(u.scheme)
    + (if u.authority.Some? then AuthorityPieces(u.authority.value) else [])
    + PathPieces(u.path, u.tail)
  }

  function Print(u: Url): string { Flatten(Pieces(u)) }

  // ----- the two layout functions distribute over concatenation

  lemma {:induction false} FlattenConcat(ps: seq<Piece>, qs: seq<Piece>)
    ensures Flatten(ps + qs) == Flatten(ps) + Flatten(qs)
  {
    if ps == [] {
      assert ps + qs == qs;
    } else {
      assert (ps + qs)[1..] == ps[1..] + qs;
      FlattenConcat(ps[1..], qs);
    }
  }

  function FieldsOf(ps: seq<Piece>): set<Field> {
    set p <- ps | p.field.Some? :: p.field.value
  }

  lemma {:induction false} PlaceKeys(ps: seq<Piece>, pos: nat)
    ensures Place(ps, pos).Keys <= FieldsOf(ps)
    decreases |ps|
  {
    if ps != [] {
      PlaceKeys(ps[1..], pos + |ps[0].text|);
      assert ps[0] in ps && forall p <- ps[1..] :: p in ps;
    }
  }

  lemma MergeUpdate(m: map<Field, Slice>, n: map<Field, Slice>, f: Field, slice: Slice)
    requires f !in n
    ensures (m + n)[f := slice] == m[f := slice] + n
  {
  }

  lemma MergeAssociates(m: map<Field, Slice>, a: map<Field, Slice>, b: map<Field, Slice>)
    ensures m + a + b == m + (a + b) && (a + b).Keys == a.Keys + b.Keys
  {
  }

  lemma FieldsTail(ps: seq<Piece>)
    requires ps != []
    ensures FieldsOf(ps[1..]) <= FieldsOf(ps)
    ensures ps[0].field.Some? ==> ps[0].field.value in FieldsOf(ps)
  {
    assert ps[0] in ps && forall p <- ps[1..] :: p in ps;
  }

  lemma {:induction false} PlaceConcat(ps: seq<Piece>, qs: seq<Piece>, pos: nat)
    requires FieldsOf(ps) !! FieldsOf(qs)
    ensures Place(ps + qs, pos) == Place(ps, pos) + Place(qs, pos + |Flatten(ps)|)
    decreases |ps|
  {
    hide FieldsOf;
    if ps == [] {
      assert ps + qs == qs;
    } else {
      var head, rest, next := ps[0], ps[1..], pos + |ps[0].text|;
      assert (ps + qs)[0] == head && (ps + qs)[1..] == rest + qs;
      FieldsTail(ps);
      PlaceConcat(rest, qs, next);
      var placed := Place(qs, pos + |Flatten(ps)|);
      PlaceKeys(qs, pos + |Flatten(ps)|);
      assert Place(rest + qs, next) == Place(rest, next) + placed;
      if head.field.Some? {
        MergeUpdate(Place(rest, next), placed, head.field.value, Slice(pos, |head.text|));
      }
    }
  }

  lemma SinglePiece(p: Piece, pos: nat)
    ensures Flatten([p]) == p.text
    ensures Place([p], pos)
         == if p.field.Some? && p.text != "" then map[p.field.value := Slice(pos, |p.text|)] else map[]
  {
    assert [p][1..] == [];
  }

  /** A delimiter followed by a field value, written out. */
  lemma DelimiterAndField(delimiter: string, f: Field, text: string, pos: nat)
    ensures var ps := [Piece(None, delimiter), Piece(Some(f), text)];
            && Flatten(ps) == delimiter + text
            && Place(ps, pos) == if text == "" then map[] else map[f := Slice(pos + |delimiter|, |text|)]
  {
    var p, q := Piece(None, delimiter), Piece(Some(f), text);
    assert [p, q][1..] == [q];
    SinglePiece(q, pos + |delimiter|);
  }

  /** A field value followed by a delimiter, written out. */
  lemma FieldAndDelimiter(f: Field, text: string, delimiter: string, pos: nat)
    ensures var ps := [Piece(Some(f), text), Piece(None, delimiter)];
            && Flatten(ps) == text + delimiter
            && Place(ps, pos) == if text == "" then map[] else map[f := Slice(pos, |text|)]
  {
    var p, q := Piece(Some(f), text), Piece(None, delimiter);
    assert [p, q][1..] == [q];
    SinglePiece(q, pos + |text|);
  }

  // ----- slices in 16 bits

  /** A slice as the record keeps it, in 16 bits. */
  function Kept(slice: Slice): Slice { Slice(Wrap16(slice.off), Wrap16(slice.len)) }

  function Stored(placed: map<Field, Slice>): map<Field, Slice> { map f <- placed.Keys :: Kept(placed[f]) }

  predicate Fits(slice: Slice) { 0 <= slice.off <= 0xFFFF && 0 <= slice.len <= 0xFFFF }

  lemma StoredUpdate(m: map<Field, Slice>, f: Field, slice: Slice)
    ensures m + Stored(map[f := slice]) == m[f := Kept(slice)]
    ensures map[f := slice].Keys == {f}
  {
  }

  lemma StoredKeys(m: map<Field, Slice>)
    ensures Stored(m).Keys == m.Keys
  {
  }

  lemma StoredNothing(m: map<Field, Slice>)
    ensures m + Stored(map[]) == m
  {
  }

  lemma StoredMerge(m: map<Field, Slice>, n: map<Field, Slice>)
    ensures Stored(m + n) == Stored(m) + Stored(n)
  {
  }

  /** A slice after `n` more characters: its length is kept in 16 bits. */
  function Grown(data: map<Field, Slice>, f: Field, n: nat): map<Field, Slice>
    requires f in data
  {
    data[f := Slice(data[f].off, Wrap16(data[f].len + n))]
  }

  lemma GrownTwice(data: map<Field, Slice>, f: Field, n: nat)
    requires f in data && 0 <= data[f].len <= 0xFFFF
    ensures Grown(Grown(data, f, 1), f, n) == Grown(data, f, n + 1)
  {
  }
}
