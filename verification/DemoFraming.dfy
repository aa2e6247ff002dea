/** The demo framing: when it depends on how the stream was cut into reads, what it does on
    intact streams, what it never does on any stream, and how it resynchronises. */
module DemoFraming {
  import opened Wrappers
  import opened Framing

  // ----- up to the first broken frame the cuts do not matter

  /** The machine without chunk ends. */
  function Run(st: Framer, s: string): Framer
    decreases |s|
  {
    if s == "" then st else Run(DemoByte(st, s[0], false), s[1..])
  }

  datatype Break = Break(pending: string, out: seq<string>, rest: string)

  /** The first byte that breaks a frame: what was pending and delivered then, and what follows. */
  function FirstBreak(st: Framer, s: string): Option<Break>
    decreases |s|
  {
    if s == "" || st.Halted? || st.mode.Recovery? then None
    else if st.mode.Body? && Breaks(s[0]) then Some(Break(st.body, st.out, s[1..]))
    else FirstBreak(DemoByte(st, s[0], false), s[1..])
  }

  predicate Sound(st: Framer) { st.Framer? ==> !st.mode.Recovery? }

  /** A chunk runs like the whole stream up to the first break, and goes on in recovery. */
  lemma {:induction false} ChunkUpToBreak(st: Framer, chunk: string)
    requires Sound(st)
    ensures match FirstBreak(st, chunk)
            case None => Chunk(Demo, st, chunk) == Run(st, chunk) && Sound(Run(st, chunk))
            case Some(b) => Chunk(Demo, st, chunk) == Chunk(Demo, Framer(Recovery, b.pending, b.out), b.rest)
    decreases |chunk|
  {
    if chunk != "" {
      if st.Halted? {
        HaltedStays(Demo, st.out, chunk);
        HaltedRun(st.out, chunk);
      } else if !(st.mode.Body? && Breaks(chunk[0])) {
        assert DemoByte(st, chunk[0], |chunk| == 1) == DemoByte(st, chunk[0], false);
        ChunkUpToBreak(DemoByte(st, chunk[0], false), chunk[1..]);
      }
    }
  }

  lemma {:induction false} HaltedRun(out: seq<string>, s: string)
    ensures Run(Halted(out), s) == Halted(out)
    decreases |s|
  {
    if s != "" {
      HaltedRun(out, s[1..]);
    }
  }

  lemma {:induction false} BreakConcat(st: Framer, a: string, b: string)
    requires Sound(st)
    ensures match FirstBreak(st, a)
            case None => FirstBreak(st, a + b) == FirstBreak(Run(st, a), b)
            case Some(br) => FirstBreak(st, a + b) == Some(br.(rest := br.rest + b))
    ensures FirstBreak(st, a).None? ==> Run(st, a + b) == Run(Run(st, a), b)
    decreases |a|
  {
    if a == "" {
      assert a + b == b;
    } else {
      assert (a + b)[0] == a[0] && (a + b)[1..] == a[1..] + b;
      if st.Halted? {
        HaltedRun(st.out, a);
        HaltedRun(st.out, b);
        HaltedRun(st.out, a + b);
      } else if !(st.mode.Body? && Breaks(a[0])) {
        BreakConcat(DemoByte(st, a[0], false), a[1..], b);
      }
    }
  }

  // ----- recovery

  /** Some later STX, other than the very last byte, would make the outcome depend on the cuts:
      the broken frame left bytes behind, or the STX is not broken off at once. */
  predicate Risky(pending: string, rest: string) {
    exists i :: 0 <= i < |rest| - 1 && RiskyAt(pending, rest, i)
  }

  predicate RiskyAt(pending: string, rest: string, i: int)
    requires 0 <= i < |rest| - 1
  {
    rest[i] == STX && (pending != "" || !Breaks(rest[i + 1]))
  }

  lemma RiskyMonotone(pending: string, a: string, b: string)
    ensures Risky(pending, a) ==> Risky(pending, a + b)
    ensures Risky("", b) ==> Risky(pending, a + b)
    ensures Risky(pending, b) ==> Risky(pending, a + b)
  {
    if Risky(pending, a) {
      var i :| 0 <= i < |a| - 1 && RiskyAt(pending, a, i);
      assert RiskyAt(pending, a + b, i);
    }
    if Risky("", b) {
      var i :| 0 <= i < |b| - 1 && RiskyAt("", b, i);
      assert RiskyAt(pending, a + b, |a| + i);
    }
    if Risky(pending, b) {
      var i :| 0 <= i < |b| - 1 && RiskyAt(pending, b, i);
      assert RiskyAt(pending, a + b, |a| + i);
    }
  }

  /** In recovery, a chunk without a risky STX delivers nothing and drops what was pending. */
  lemma {:induction false} QuietRecovery(pending: string, out: seq<string>, chunk: string)
    requires chunk != "" && !Risky(pending, chunk)
    ensures Chunk(Demo, Framer(Recovery, pending, out), chunk) == Framer(Recovery, "", out)
    decreases |chunk|
  {
    var st := Framer(Recovery, pending, out);
    var rest := chunk[1..];
    assert chunk == [chunk[0]] + rest;
    RiskyMonotone(pending, [chunk[0]], rest);
    if |chunk| == 1 {
      assert rest == "";
    } else if chunk[0] == STX {
      assert !RiskyAt(pending, chunk, 0);
      assert pending == "" && Breaks(rest[0]);
      var later := rest[1..];
      assert Chunk(Demo, st, chunk) == Chunk(Demo, Framer(Body, "", out), rest);
      assert Chunk(Demo, Framer(Body, "", out), rest) == Chunk(Demo, st, later);
      if later != "" {
        assert rest == [rest[0]] + later;
        RiskyMonotone("", [rest[0]], later);
        QuietRecovery("", out, later);
      }
    } else {
      QuietRecovery(pending, out, rest);
    }
  }

  lemma {:induction false} QuietRecoveries(pending: string, out: seq<string>, chunks: seq<string>)
    requires NonEmpty(chunks) && !Risky(pending, Flat(chunks))
    ensures Chunks(Demo, Framer(Recovery, pending, out), chunks)
         == Framer(Recovery, if chunks == [] then pending else "", out)
    decreases |chunks|
  {
    if chunks != [] {
      RiskyMonotone(pending, chunks[0], Flat(chunks[1..]));
      QuietRecovery(pending, out, chunks[0]);
      QuietRecoveries("", out, chunks[1..]);
    }
  }

  /** The state a stream leaves behind when no STX after the break is risky. */
  function Canonical(st: Framer, s: string): Framer {
    match FirstBreak(st, s)
    case None => Run(st, s)
    case Some(b) => Framer(Recovery, if b.rest == "" then b.pending else "", b.out)
  }

  predicate CutsMatter(st: Framer, s: string) {
    FirstBreak(st, s).Some? && Risky(FirstBreak(st, s).value.pending, FirstBreak(st, s).value.rest)
  }

  lemma {:induction false} CanonicalForm(st: Framer, chunks: seq<string>)
    requires Sound(st) && NonEmpty(chunks) && !CutsMatter(st, Flat(chunks))
    ensures Chunks(Demo, st, chunks) == Canonical(st, Flat(chunks))
    decreases |chunks|
  {
    if chunks != [] {
      var first, later := chunks[0], chunks[1..];
      ChunkUpToBreak(st, first);
      BreakConcat(st, first, Flat(later));
      match FirstBreak(st, first) {
        case None =>
          CanonicalForm(Run(st, first), later);
        case Some(b) =>
          RiskyMonotone(b.pending, b.rest, Flat(later));
          if b.rest == "" {
            assert b.rest + Flat(later) == Flat(later);
            QuietRecoveries(b.pending, b.out, later);
            FlatEmpty(later);
          } else {
            QuietRecovery(b.pending, b.out, b.rest);
            QuietRecoveries("", b.out, later);
          }
      }
    }
  }

  lemma FlatEmpty(chunks: seq<string>)
    requires NonEmpty(chunks)
    ensures Flat(chunks) == "" <==> chunks == []
  {
  }

  // ----- a risky STX does make the cuts matter

  function Singles(s: string): seq<string> {
    if s == "" then [] else [[s[0]]] + Singles(s[1..])
  }

  lemma {:induction false} SinglesFlat(s: string)
    ensures Flat(Singles(s)) == s && NonEmpty(Singles(s))
  {
    if s != "" {
      SinglesFlat(s[1..]);
      assert Singles(s)[1..] == Singles(s[1..]);
    }
  }

  /** Read one byte at a time, the parser never leaves recovery. */
  lemma {:induction false} SinglesStayInRecovery(pending: string, out: seq<string>, s: string)
    ensures Chunks(Demo, Framer(Recovery, pending, out), Singles(s))
         == Framer(Recovery, if s == "" then pending else "", out)
    decreases |s|
  {
    if s != "" {
      assert Singles(s)[1..] == Singles(s[1..]);
      assert Chunk(Demo, Framer(Recovery, pending, out), [s[0]]) == Framer(Recovery, "", out) by {
        assert [s[0]][1..] == "";
      }
      SinglesStayInRecovery("", out, s[1..]);
    }
  }

  /** All readings of every prefix of the stream end in the same state. */
  ghost predicate Independent(s: string) {
    forall a: seq<string>, b: seq<string> ::
      NonEmpty(a) && NonEmpty(b) && Flat(a) == Flat(b) && Flat(a) <= s ==>
        Chunks(Demo, Init, a) == Chunks(Demo, Init, b)
  }

  /** Up to and including the breaking byte. */
  lemma {:induction false} BreakPosition(st: Framer, s: string) returns (n: nat)
    requires FirstBreak(st, s).Some?
    ensures 0 < n <= |s| && s[n..] == FirstBreak(st, s).value.rest
    ensures FirstBreak(st, s[..n]) == Some(FirstBreak(st, s).value.(rest := ""))
    decreases |s|
  {
    if st.mode.Body? && Breaks(s[0]) {
      n := 1;
      assert s[..1][0] == s[0] && s[..1][1..] == "";
    } else {
      var m := BreakPosition(DemoByte(st, s[0], false), s[1..]);
      n := m + 1;
      assert s[..n][1..] == s[1..][..m] && s[n..] == s[1..][m..];
    }
  }

  /** The bytes before the first STX keep recovery waiting while more of the chunk follows. */
  lemma {:induction false} WaitForStx(pending: string, out: seq<string>, w: string, i: nat)
    requires i < |w| - 1 && w[i] == STX && forall j :: 0 <= j < i ==> w[j] != STX
    ensures Chunk(Demo, Framer(Recovery, pending, out), w) == Chunk(Demo, Framer(Body, pending, out), w[i + 1..])
    decreases |w|
  {
    if i > 0 {
      WaitForStx(pending, out, w[1..], i - 1);
      assert w[1..][i..] == w[i + 1..];
    }
  }

  lemma FirstStx(w: string, limit: nat) returns (i: nat)
    requires limit < |w| && w[limit] == STX
    ensures i <= limit && w[i] == STX && forall j :: 0 <= j < i ==> w[j] != STX
  {
    i := 0;
    while w[i] != STX
      invariant i <= limit && forall j :: 0 <= j < i ==> w[j] != STX
      decreases limit - i
    {
      i := i + 1;
    }
  }

  /** One byte in an open frame never looks like recovery with nothing pending, unless it
      breaks an empty frame. */
  lemma BodyByteShows(pending: string, out: seq<string>, c: char)
    requires pending != "" || !Breaks(c)
    ensures Chunk(Demo, Framer(Body, pending, out), [c]) != Framer(Recovery, "", out)
  {
    assert [c][1..] == "";
  }

  lemma OneChunk(st: Framer, w: string)
    ensures Chunks(Demo, st, [w]) == Chunk(Demo, st, w) && Flat([w]) == w
  {
    assert |[w][1..]| == 0;
  }

  /** `x` and `y` read the same bytes, in non-empty reads, and end differently. */
  ghost predicate Differ(bytes: string, x: seq<string>, y: seq<string>) {
    && NonEmpty(x) && NonEmpty(y) && Flat(x) == bytes && Flat(y) == bytes
    && Chunks(Demo, Init, x) != Chunks(Demo, Init, y)
  }

  lemma OneByOne(pre: string, b: Break, n: nat) returns (x: seq<string>)
    requires FirstBreak(Init, pre) == Some(b.(rest := "")) && 0 < n <= |b.rest| && pre != ""
    ensures Chunks(Demo, Init, x) == Framer(Recovery, "", b.out)
    ensures NonEmpty(x) && Flat(x) == pre + b.rest[..n]
  {
    x := [pre] + Singles(b.rest[..n]);
    ChunkUpToBreak(Init, pre);
    OneChunk(Init, pre);
    hide Chunks, Chunk, Flat, FirstBreak, Run;
    ChunksConcat(Demo, Init, [pre], Singles(b.rest[..n]));
    AtTheBreak(b);
    SinglesStayInRecovery(b.pending, b.out, b.rest[..n]);
    SinglesFlat(b.rest[..n]);
    FlatConcat([pre], Singles(b.rest[..n]));
  }

  lemma AtTheBreak(b: Break)
    ensures Chunk(Demo, Framer(Recovery, b.pending, b.out), "") == Framer(Recovery, b.pending, b.out)
  {
  }

  /** One read up to the byte behind the first STX shows what the broken frame left behind. */
  lemma LeftBehind(pre: string, b: Break, i: nat) returns (y: seq<string>)
    requires FirstBreak(Init, pre) == Some(b.(rest := "")) && b.pending != "" && pre != ""
    requires i < |b.rest| - 1 && b.rest[i] == STX && forall j :: 0 <= j < i ==> b.rest[j] != STX
    ensures NonEmpty(y) && Flat(y) == pre + b.rest[..i + 2]
    ensures Chunks(Demo, Init, y) != Framer(Recovery, "", b.out)
  {
    hide Chunks, Chunk, Flat, FirstBreak, Run;
    var w := b.rest[..i + 2];
    y := [pre + w];
    BreakConcat(Init, pre, w);
    assert "" + w == w;
    ChunkUpToBreak(Init, pre + w);
    WaitForStx(b.pending, b.out, w, i);
    assert w[i + 1..] == [b.rest[i + 1]];
    BodyByteShows(b.pending, b.out, b.rest[i + 1]);
    OneChunk(Init, pre + w);
  }

  /** A read of the STX and the byte behind it shows the frame it opened. */
  lemma Reopened(pre: string, b: Break, i: nat) returns (y: seq<string>)
    requires FirstBreak(Init, pre) == Some(b.(rest := "")) && b.pending == "" && pre != ""
    requires i < |b.rest| - 1 && b.rest[i] == STX && !Breaks(b.rest[i + 1])
    ensures NonEmpty(y) && Flat(y) == pre + b.rest[..i + 2]
    ensures Chunks(Demo, Init, y) != Framer(Recovery, "", b.out)
  {
    hide Chunks, Chunk, Flat, FirstBreak, Run, Singles;
    var w, before := b.rest[i..i + 2], Singles(b.rest[..i]);
    y := [pre] + before + [w];
    ChunkUpToBreak(Init, pre);
    AtTheBreak(b);
    OneChunk(Init, pre);
    OneChunk(Framer(Recovery, "", b.out), w);
    ChunksConcat(Demo, Init, [pre] + before, [w]);
    ChunksConcat(Demo, Init, [pre], before);
    SinglesStayInRecovery("", b.out, b.rest[..i]);
    WaitForStx("", b.out, w, 0);
    assert w[1..] == [b.rest[i + 1]];
    BodyByteShows("", b.out, b.rest[i + 1]);
    SinglesFlat(b.rest[..i]);
    FlatConcat([pre] + before, [w]);
    FlatConcat([pre], before);
    assert b.rest[..i] + w == b.rest[..i + 2];
  }

  /** A risky STX gives two readings of the same bytes that end differently. */
  lemma TwoReadings(s: string) returns (n: nat, x: seq<string>, y: seq<string>)
    requires CutsMatter(Init, s)
    ensures n <= |s| && Differ(s[..n], x, y)
  {
    hide Chunks, Chunk, Flat, FirstBreak, Run;
    var b := FirstBreak(Init, s).value;
    var k := BreakPosition(Init, s);
    var pre := s[..k];
    var i: nat :| i < |b.rest| - 1 && RiskyAt(b.pending, b.rest, i);
    if b.pending != "" {
      i := FirstStx(b.rest, i);
      y := LeftBehind(pre, b, i);
    } else {
      y := Reopened(pre, b, i);
    }
    x := OneByOne(pre, b, i + 2);
    n := k + i + 2;
    assert s == pre + b.rest && pre + b.rest[..i + 2] == s[..n];
  }

  /** What is delivered and pending depends on the bytes alone, at every point of the stream, if
      and only if no STX after the first broken frame is risky. */
  lemma IndependentExactlyWhen(s: string)
    ensures Independent(s) <==> !CutsMatter(Init, s)
  {
    if CutsMatter(Init, s) {
      var n, x, y := TwoReadings(s);
      assert Flat(x) == s[..n] <= s;
    } else {
      forall a: seq<string>, b: seq<string> | NonEmpty(a) && NonEmpty(b) && Flat(a) == Flat(b) && Flat(a) <= s
        ensures Chunks(Demo, Init, a) == Chunks(Demo, Init, b)
      {
        assert s == Flat(a) + s[|Flat(a)|..];
        PrefixIsQuiet(Flat(a), s[|Flat(a)|..]);
        CanonicalForm(Init, a);
        CanonicalForm(Init, b);
      }
    }
  }

  lemma PrefixIsQuiet(a: string, b: string)
    requires !CutsMatter(Init, a + b)
    ensures !CutsMatter(Init, a)
  {
    BreakConcat(Init, a, b);
    if FirstBreak(Init, a).Some? {
      var br := FirstBreak(Init, a).value;
      RiskyMonotone(br.pending, br.rest, b);
    }
  }
}
