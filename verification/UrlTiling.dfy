/** Facts about laid-out pieces in general: every placed slice holds its value, slices follow the
    order of the pieces, and every other character belongs to a delimiter. */
module UrlTiling {
  import opened Wrappers
  import opened UrlParser
  import opened UrlGrammar

  /** The first non-empty value of a field among the pieces. */
  function Value(ps: seq<Piece>, f: Field): string {
    if ps == [] then ""
    else if ps[0].field == Some(f) && ps[0].text != "" then ps[0].text
    else Value(ps[1..], f)
  }

  lemma {:induction false} ValueConcat(ps: seq<Piece>, qs: seq<Piece>, f: Field)
    ensures Value(ps + qs, f) == if Value(ps, f) != "" then Value(ps, f) else Value(qs, f)
  {
    if ps == [] {
      assert ps + qs == qs;
    } else {
      assert (ps + qs)[1..] == ps[1..] + qs;
      ValueConcat(ps[1..], qs, f);
    }
  }

  /** `text` is what lies at the slice when `whole` is written from `pos` on. */
  predicate HoldsAt(whole: string, pos: nat, slice: Slice, text: string) {
    && slice.len == |text| > 0
    && pos <= slice.off && slice.off + slice.len <= pos + |whole|
    && whole[slice.off - pos..slice.off - pos + slice.len] == text
  }

  lemma HoldsBehind(head: string, rest: string, pos: nat, slice: Slice, text: string)
    requires HoldsAt(rest, pos + |head|, slice, text)
    ensures HoldsAt(head + rest, pos, slice, text)
  {
    var lo := slice.off - pos - |head|;
    assert (head + rest)[lo + |head|..lo + |head| + slice.len] == rest[lo..lo + slice.len];
  }

  lemma HoldsInFront(head: string, rest: string, pos: nat)
    requires head != ""
    ensures HoldsAt(head + rest, pos, Slice(pos, |head|), head)
  {
    assert (head + rest)[..|head|] == head;
  }

  lemma PlacedFirst(ps: seq<Piece>, pos: nat, f: Field)
    requires ps != []
    ensures var head, rest := ps[0].text, ps[1..];
            && Flatten(ps) == head + Flatten(rest)
            && (if ps[0].field == Some(f) && head != ""
                then f in Place(ps, pos) && Place(ps, pos)[f] == Slice(pos, |head|) && Value(ps, f) == head
                else (f in Place(ps, pos) <==> f in Place(rest, pos + |head|)) && Value(ps, f) == Value(rest, f)
                     && (f in Place(ps, pos) ==> Place(ps, pos)[f] == Place(rest, pos + |head|)[f]))
  {
  }

  /** A field is placed exactly when it has a value, and its slice holds that value. */
  lemma {:induction false} PlacedText(ps: seq<Piece>, pos: nat, f: Field)
    ensures f in Place(ps, pos) <==> Value(ps, f) != ""
    ensures f in Place(ps, pos) ==> HoldsAt(Flatten(ps), pos, Place(ps, pos)[f], Value(ps, f))
    decreases |ps|
  {
    hide HoldsAt;
    if ps != [] {
      var head, rest := ps[0].text, ps[1..];
      var next := pos + |head|;
      PlacedText(rest, next, f);
      PlacedFirst(ps, pos, f);
      hide Place, Flatten, Value;
      if ps[0].field == Some(f) && head != "" {
        HoldsInFront(head, Flatten(rest), pos);
      } else if f in Place(rest, next) {
        HoldsBehind(head, Flatten(rest), pos, Place(rest, next)[f], Value(rest, f));
      }
    }
  }

  function Rank(f: Field): int {
    match f
    case UfSchema => 0
    case UfUserinfo => 1
    case UfHost => 2
    case UfPort => 3
    case UfPath => 4
    case UfQuery => 5
    case UfFragment => 6
  }

  /** The field pieces come in URL order, each field at most once. */
  predicate Ordered(ps: seq<Piece>) {
    forall i, j :: 0 <= i < j < |ps| && ps[i].field.Some? && ps[j].field.Some? ==>
      Rank(ps[i].field.value) < Rank(ps[j].field.value)
  }

  lemma LaterRanks(ps: seq<Piece>, pos: nat, f: Field)
    requires ps != [] && Ordered(ps) && ps[0].field.Some? && f in Place(ps[1..], pos)
    ensures Rank(ps[0].field.value) < Rank(f)
  {
    PlaceKeys(ps[1..], pos);
    var p :| p in ps[1..] && p.field == Some(f);
    var j :| 0 <= j < |ps[1..]| && ps[1..][j] == p;
    assert ps[j + 1].field == Some(f);
  }

  lemma {:induction false} PlacedInOrder(ps: seq<Piece>, pos: nat, f: Field, g: Field)
    requires Ordered(ps)
    requires f in Place(ps, pos) && g in Place(ps, pos) && Rank(f) < Rank(g)
    ensures Place(ps, pos)[f].off + Place(ps, pos)[f].len <= Place(ps, pos)[g].off
    decreases |ps|
  {
    var rest, next := ps[1..], pos + |ps[0].text|;
    if ps[0].field.Some? {
      forall h <- Place(rest, next) {
        LaterRanks(ps, next, h);
      }
    }
    PlacedText(rest, next, g);
    if f in Place(rest, next) {
      PlacedInOrder(rest, next, f, g);
    }
  }

  predicate Covers(placed: map<Field, Slice>, f: Field, i: int) {
    f in placed && placed[f].off <= i < placed[f].off + placed[f].len
  }

  predicate IsDelimiter(c: char) {
    c == ':' || c == '/' || c == '@' || c == '[' || c == ']' || c == '?' || c == '#'
  }

  predicate DelimitersOnly(ps: seq<Piece>) {
    forall p, i :: p in ps && p.field.None? && 0 <= i < |p.text| ==> IsDelimiter(p.text[i])
  }

  /** Every character outside the placed slices is a delimiter. */
  lemma {:induction false} GapsAreDelimiters(ps: seq<Piece>, pos: nat, i: int)
    requires Ordered(ps) && DelimitersOnly(ps) && pos <= i < pos + |Flatten(ps)|
    ensures (exists f :: Covers(Place(ps, pos), f, i)) || IsDelimiter(Flatten(ps)[i - pos])
    decreases |ps|
  {
    var head, rest := ps[0], ps[1..];
    var next := pos + |head.text|;
    if i < next {
      if head.field.Some? {
        var f := head.field.value;
        assert Place(ps, pos)[f] == Slice(pos, |head.text|);
        assert Covers(Place(ps, pos), f, i);
      } else {
        assert head in ps;
      }
    } else {
      GapsAreDelimiters(rest, next, i);
      if f :| Covers(Place(rest, next), f, i) {
        if head.field.Some? {
          LaterRanks(ps, next, f);
        }
        assert Covers(Place(ps, pos), f, i);
      }
    }
  }
}
