/** The two message framings as byte machines, chunk by chunk.

    A `Framer` is what a parser keeps between calls (mode and pending body) plus the messages it
    has delivered.  `Halted` is the failed capacity assertion of the message buffer, with the
    messages delivered before it.  The demo machine is given the end of each chunk (`last`), because
    the source's error recovery looks at it. */
module Framing {
  import opened Ascii

  const STX := '\U{0002}'
  const ETX := '\U{0003}'
  const DEMO_CAPACITY := 1024
  const NEWLINE_CAPACITY := 4096

  datatype Kind = Newline | Demo

  /** What the buffer of one message takes. */
  function Capacity(kind: Kind): nat {
    if kind.Demo? then DEMO_CAPACITY else NEWLINE_CAPACITY
  }

  datatype Mode = Idle | Body | Recovery

  datatype Framer = Framer(mode: Mode, body: string, out: seq<string>) | Halted(out: seq<string>)

  const Init := Framer(Idle, "", [])

  /** isprint in the C locale. */
  predicate IsPrint(c: char) { ' ' <= c <= '~' }

  /** The range is the printing characters of the C locale. */
  lemma PrintIs(c: char)
    ensures IsPrint(c) <==> Printing(c)
  {
  }

  /** A byte that breaks an open demo frame. */
  predicate Breaks(c: char) { !IsPrint(c) && c != ETX }

  predicate AllPrint(s: string) { forall i :: 0 <= i < |s| ==> IsPrint(s[i]) }

  lemma AllPrintIs(s: string)
    ensures AllPrint(s) <==> forall i :: 0 <= i < |s| ==> Printing(s[i])
  {
    hide IsPrint, Printing;
    forall i | 0 <= i < |s| ensures IsPrint(s[i]) <==> Printing(s[i]) {
      PrintIs(s[i]);
    }
  }

  /** One iteration of demo_msg_parser_consume; `last` says the byte ends the chunk. */
  function DemoByte(st: Framer, ch: char, last: bool): Framer {
    match st
    case Halted(_) => st
    case Framer(Idle, _, _) => if ch == STX then st.(mode := Body) else st
    case Framer(Body, body, out) =>
      if IsPrint(ch) then (if |body| == DEMO_CAPACITY then Halted(out) else st.(body := body + [ch]))
      else if ch == ETX then Framer(Idle, "", out + [body])
      else st.(mode := Recovery)
    case Framer(Recovery, _, _) =>
      if ch == STX && !last then st.(mode := Body)
      else if last then st.(body := "")
      else st
  }

  /** One iteration of newline_msg_parser_consume. */
  function NewlineByte(st: Framer, ch: char): Framer {
    match st
    case Halted(_) => st
    case Framer(mode, body, out) =>
      if ch == '\n' || ch == '\0' then Framer(mode, "", out + [body])
      else if |body| == NEWLINE_CAPACITY then Halted(out)
      else st.(body := body + [ch])
  }

  function Byte(kind: Kind, st: Framer, ch: char, last: bool): Framer {
    if kind.Demo? then DemoByte(st, ch, last) else NewlineByte(st, ch)
  }

  /** One call of the parser on a chunk. */
  function Chunk(kind: Kind, st: Framer, chunk: string): Framer
    decreases |chunk|
  {
    if chunk == "" then st else Chunk(kind, Byte(kind, st, chunk[0], |chunk| == 1), chunk[1..])
  }

  /** A run of calls. */
  function Chunks(kind: Kind, st: Framer, chunks: seq<string>): Framer
    decreases |chunks|
  {
    if chunks == [] then st else Chunks(kind, Chunk(kind, st, chunks[0]), chunks[1..])
  }

  function Flat(parts: seq<string>): string {
    if parts == [] then "" else parts[0] + Flat(parts[1..])
  }

  /** The reads a parser can see: none of them empty. */
  predicate NonEmpty(chunks: seq<string>) { forall i :: 0 <= i < |chunks| ==> chunks[i] != "" }

  // ----- general facts

  lemma {:induction false} FlatConcat(a: seq<string>, b: seq<string>)
    ensures Flat(a + b) == Flat(a) + Flat(b)
  {
    if a == [] {
      assert a + b == b;
    } else {
      assert (a + b)[1..] == a[1..] + b;
      FlatConcat(a[1..], b);
    }
  }

  lemma {:induction false} ChunksConcat(kind: Kind, st: Framer, a: seq<string>, b: seq<string>)
    ensures Chunks(kind, st, a + b) == Chunks(kind, Chunks(kind, st, a), b)
    decreases |a|
  {
    if a == [] {
      assert a + b == b;
    } else {
      assert (a + b)[1..] == a[1..] + b;
      ChunksConcat(kind, Chunk(kind, st, a[0]), a[1..], b);
    }
  }

  lemma {:induction false} HaltedStays(kind: Kind, out: seq<string>, s: string)
    ensures Chunk(kind, Halted(out), s) == Halted(out)
    decreases |s|
  {
    if s != "" {
      HaltedStays(kind, out, s[1..]);
    }
  }

  /** Starting with messages already delivered only puts them in front. */
  function Behind(out: seq<string>, st: Framer): Framer {
    st.(out := out + st.out)
  }

  lemma {:induction false} ChunkBehind(kind: Kind, out: seq<string>, st: Framer, chunk: string)
    ensures Chunk(kind, Behind(out, st), chunk) == Behind(out, Chunk(kind, st, chunk))
    decreases |chunk|
  {
    if chunk != "" {
      var last := |chunk| == 1;
      assert Byte(kind, Behind(out, st), chunk[0], last) == Behind(out, Byte(kind, st, chunk[0], last)) by {
        if st.Framer? {
          assert out + (st.out + [st.body]) == out + st.out + [st.body];
        }
      }
      ChunkBehind(kind, out, Byte(kind, st, chunk[0], last), chunk[1..]);
    }
  }

  /** One byte of a chunk, behind messages delivered earlier in the same call. */
  lemma StepBehind(kind: Kind, out: seq<string>, st: Framer, chunk: string, delivered: seq<string>)
    requires st.Framer? && st.out == [] && chunk != ""
    requires var next := Byte(kind, st, chunk[0], |chunk| == 1); next.Framer? && next.out == delivered
    ensures var next := Byte(kind, st, chunk[0], |chunk| == 1);
            Chunk(kind, st.(out := out), chunk) == Chunk(kind, next.(out := out + delivered), chunk[1..])
  {
    hide Byte;
    var next := Byte(kind, st, chunk[0], |chunk| == 1);
    assert st.(out := out) == Behind(out, st) by { assert out + [] == out; }
    ChunkBehind(kind, out, st, chunk);
    ChunkBehind(kind, out, next, chunk[1..]);
  }

  lemma HaltBehind(kind: Kind, out: seq<string>, st: Framer, chunk: string, delivered: seq<string>)
    requires st.Framer? && st.out == [] && chunk != ""
    requires Byte(kind, st, chunk[0], |chunk| == 1) == Halted(delivered)
    ensures Chunk(kind, st.(out := out), chunk) == Halted(out + delivered)
  {
    hide Byte;
    assert st.(out := out) == Behind(out, st) by { assert out + [] == out; }
    ChunkBehind(kind, out, st, chunk);
    HaltedStays(kind, delivered, chunk[1..]);
  }

  // ----- the newline framing depends on the bytes alone

  lemma {:induction false} NewlineChunkConcat(st: Framer, a: string, b: string)
    ensures Chunk(Newline, st, a + b) == Chunk(Newline, Chunk(Newline, st, a), b)
    decreases |a|
  {
    if a == "" {
      assert a + b == b;
    } else {
      assert (a + b)[1..] == a[1..] + b;
      NewlineChunkConcat(NewlineByte(st, a[0]), a[1..], b);
    }
  }

  /** However a newline stream is cut into reads, the result is that of one read of all of it. */
  lemma {:induction false} NewlineIndependence(st: Framer, chunks: seq<string>)
    ensures Chunks(Newline, st, chunks) == Chunk(Newline, st, Flat(chunks))
    decreases |chunks|
  {
    if chunks != [] {
      NewlineChunkConcat(st, chunks[0], Flat(chunks[1..]));
      NewlineIndependence(Chunk(Newline, st, chunks[0]), chunks[1..]);
    }
  }

  // ----- a plain reference for the newline framing: split at the terminators

  predicate IsTerminator(c: char) { c == '\n' || c == '\0' }

  /** Index of the first terminator at or after `from`, or the length. */
  function NextTerminator(s: string, from: nat): (k: nat)
    requires from <= |s|
    ensures from <= k <= |s| && (k < |s| ==> IsTerminator(s[k]))
    ensures forall i :: from <= i < k ==> !IsTerminator(s[i])
    decreases |s| - from
  {
    if from == |s| || IsTerminator(s[from]) then from else NextTerminator(s, from + 1)
  }

  function Lines(s: string): seq<string>
    decreases |s|
  {
    var k := NextTerminator(s, 0);
    if k == |s| then [] else [s[..k]] + Lines(s[k + 1..])
  }

  function LastLine(s: string): string
    decreases |s|
  {
    var k := NextTerminator(s, 0);
    if k == |s| then s else LastLine(s[k + 1..])
  }

  /** No line outgrows its buffer. */
  predicate LinesFit(s: string)
    decreases |s|
  {
    var k := NextTerminator(s, 0);
    k <= NEWLINE_CAPACITY && (k < |s| ==> LinesFit(s[k + 1..]))
  }

  /** The lines before the first that outgrows its buffer. */
  function FittingLines(s: string): seq<string>
    decreases |s|
  {
    var k := NextTerminator(s, 0);
    if k > NEWLINE_CAPACITY || k == |s| then [] else [s[..k]] + FittingLines(s[k + 1..])
  }

  lemma {:induction false} NewlineTextRun(st: Framer, text: string)
    requires st.Framer? && forall i :: 0 <= i < |text| ==> !IsTerminator(text[i])
    requires |st.body| <= NEWLINE_CAPACITY
    ensures Chunk(Newline, st, text)
         == if |st.body| + |text| <= NEWLINE_CAPACITY then st.(body := st.body + text) else Halted(st.out)
    decreases |text|
  {
    if text == "" {
      assert st.body + text == st.body;
    } else if |st.body| == NEWLINE_CAPACITY {
      HaltedStays(Newline, st.out, text[1..]);
    } else {
      NewlineTextRun(st.(body := st.body + [text[0]]), text[1..]);
      assert st.body + [text[0]] + text[1..] == st.body + text;
    }
  }

  /** On every stream the newline parser delivers exactly the lines and keeps the unfinished one;
      it halts exactly when some line is longer than its buffer, with the lines before delivered. */
  lemma {:induction false} NewlineIsSplit(out: seq<string>, s: string)
    ensures Chunk(Newline, Framer(Idle, "", out), s)
         == if LinesFit(s) then Framer(Idle, LastLine(s), out + Lines(s)) else Halted(out + FittingLines(s))
    decreases |s|
  {
    hide Chunk, NextTerminator;
    var k := NextTerminator(s, 0);
    var st := Framer(Idle, "", out);
    assert s == s[..k] + s[k..];
    NewlineChunkConcat(st, s[..k], s[k..]);
    NewlineTextRun(st, s[..k]);
    assert "" + s[..k] == s[..k];
    if k > NEWLINE_CAPACITY {
      HaltedStays(Newline, out, s[k..]);
      assert out + [] == out;
    } else if k < |s| {
      TerminatorStep(Framer(Idle, s[..k], out), s[k..]);
      assert s[k..][1..] == s[k + 1..];
      NewlineIsSplit(out + [s[..k]], s[k + 1..]);
      assert out + [s[..k]] + Lines(s[k + 1..]) == out + Lines(s);
      assert out + [s[..k]] + FittingLines(s[k + 1..]) == out + FittingLines(s);
    } else {
      assert s[k..] == "" && s[..k] == s;
      NothingLeft(Newline, Framer(Idle, s, out));
      assert out + [] == out;
    }
  }

  /** Behind `n` bytes of an unfinished line, some line of `s` outgrows its buffer. */
  predicate LineTooLong(n: nat, s: string)
    decreases |s|
  {
    var k := NextTerminator(s, 0);
    n + k > NEWLINE_CAPACITY || (k < |s| && LineTooLong(0, s[k + 1..]))
  }

  /** From any state the newline parser halts exactly when a line outgrows its buffer. */
  lemma {:induction false} NewlineHaltsExactlyWhen(st: Framer, s: string)
    requires st.Framer? && |st.body| <= NEWLINE_CAPACITY
    ensures Chunk(Newline, st, s).Halted? <==> LineTooLong(|st.body|, s)
    ensures Chunk(Newline, st, s).Framer? ==> |Chunk(Newline, st, s).body| <= NEWLINE_CAPACITY
    decreases |s|
  {
    hide Chunk, NextTerminator;
    var k := NextTerminator(s, 0);
    assert s == s[..k] + s[k..];
    NewlineChunkConcat(st, s[..k], s[k..]);
    NewlineTextRun(st, s[..k]);
    if |st.body| + k > NEWLINE_CAPACITY {
      HaltedStays(Newline, st.out, s[k..]);
    } else if k < |s| {
      TerminatorStep(st.(body := st.body + s[..k]), s[k..]);
      assert s[k..][1..] == s[k + 1..];
      NewlineHaltsExactlyWhen(Framer(st.mode, "", st.out + [st.body + s[..k]]), s[k + 1..]);
    } else {
      assert s[k..] == "";
      NothingLeft(Newline, st.(body := st.body + s[..k]));
    }
  }

  lemma TerminatorStep(st: Framer, s: string)
    requires st.Framer? && s != "" && IsTerminator(s[0])
    ensures Chunk(Newline, st, s) == Chunk(Newline, Framer(st.mode, "", st.out + [st.body]), s[1..])
  {
  }

  lemma NothingLeft(kind: Kind, st: Framer)
    ensures Chunk(kind, st, "") == st
  {
  }

  /** newline_msg_serialize as a value. */
  function SerializeLine(body: string): string { body + ['\n'] }

  function SerializeLines(bodies: seq<string>): string {
    if bodies == [] then "" else SerializeLine(bodies[0]) + SerializeLines(bodies[1..])
  }

  predicate LegalLine(body: string) {
    |body| <= NEWLINE_CAPACITY && forall i :: 0 <= i < |body| ==> !IsTerminator(body[i])
  }

  /** A line on the wire ends with the byte 10 and has at most 4096 bytes, none of them 10 or 0. */
  lemma LinesOnTheWire(body: string)
    ensures SerializeLine(body) == body + [10 as char]
    ensures LegalLine(body) <==> |body| <= 4096 && 10 as char !in body && 0 as char !in body
  {
  }

  lemma {:induction false} LinesRun(out: seq<string>, bodies: seq<string>)
    requires forall b <- bodies :: LegalLine(b)
    ensures Chunk(Newline, Framer(Idle, "", out), SerializeLines(bodies)) == Framer(Idle, "", out + bodies)
    decreases |bodies|
  {
    if bodies == [] {
      assert out + bodies == out;
    } else {
      hide Chunk;
      var body, rest := bodies[0], SerializeLines(bodies[1..]);
      assert body in bodies;
      var st := Framer(Idle, "", out);
      assert SerializeLines(bodies) == body + (['\n'] + rest);
      NewlineChunkConcat(st, body, ['\n'] + rest);
      NewlineTextRun(st, body);
      assert "" + body == body;
      TerminatorStep(Framer(Idle, body, out), ['\n'] + rest);
      assert (['\n'] + rest)[1..] == rest;
      LinesRun(out + [body], bodies[1..]);
      assert out + [body] + bodies[1..] == out + bodies;
    }
  }

  /** Parsing undoes serializing, in any pieces. */
  lemma NewlineSerializeThenParse(bodies: seq<string>, chunks: seq<string>)
    requires forall b <- bodies :: LegalLine(b)
    requires Flat(chunks) == SerializeLines(bodies)
    ensures Chunks(Newline, Init, chunks) == Framer(Idle, "", bodies)
  {
    NewlineIndependence(Init, chunks);
    LinesRun([], bodies);
    assert [] + bodies == bodies;
  }
}
