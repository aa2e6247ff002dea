/** The demo framing on intact streams, on serialized messages, and on arbitrary streams. */
module DemoStreams {
  import opened Ascii
  import opened Wrappers
  import opened Framing
  import opened DemoFraming

  // ----- a plain reference: cut out what lies between STX and the next ETX

  function IndexOf(s: string, c: char, from: nat): (k: nat)
    requires from <= |s|
    ensures from <= k <= |s| && (k < |s| ==> s[k] == c)
    ensures forall i :: from <= i < k ==> s[i] != c
    decreases |s| - from
  {
    if from == |s| || s[from] == c then from else IndexOf(s, c, from + 1)
  }

  function Messages(s: string): seq<string>
    decreases |s|
  {
    var i := IndexOf(s, STX, 0);
    if i == |s| then [] else
    var j := IndexOf(s, ETX, i + 1);
    if j == |s| then [] else [s[i + 1..j]] + Messages(s[j + 1..])
  }

  /** The unfinished frame at the end, if there is one. */
  function Unfinished(s: string): Option<string>
    decreases |s|, 1
  {
    var i := IndexOf(s, STX, 0);
    if i == |s| then None else UnfinishedBehind(s, i, IndexOf(s, ETX, i + 1))
  }

  /** The same behind a frame opened at `i` whose first ETX, if any, is at `j`. */
  function UnfinishedBehind(s: string, i: nat, j: nat): Option<string>
    requires i < j <= |s|
    decreases |s|, 0
  {
    if j == |s| then Some(s[i + 1..]) else Unfinished(s[j + 1..])
  }

  /** Every frame holds only printable bytes, and no more than a message buffer takes. */
  predicate Intact(s: string)
    decreases |s|
  {
    var i := IndexOf(s, STX, 0);
    i < |s| ==>
      var j := IndexOf(s, ETX, i + 1);
      AllPrint(s[i + 1..j]) && j - i - 1 <= DEMO_CAPACITY && (j < |s| ==> Intact(s[j + 1..]))
  }

  function After(out: seq<string>, s: string): Framer {
    match Unfinished(s)
    case None => Framer(Idle, "", out + Messages(s))
    case Some(body) => Framer(Body, body, out + Messages(s))
  }

  lemma {:induction false} GapRun(out: seq<string>, gap: string)
    requires STX !in gap
    ensures Run(Framer(Idle, "", out), gap) == Framer(Idle, "", out)
    ensures FirstBreak(Framer(Idle, "", out), gap).None?
  {
    if gap != "" {
      GapRun(out, gap[1..]);
    }
  }

  lemma {:induction false} BodyRun(body: string, out: seq<string>, text: string)
    requires AllPrint(text) && |body| + |text| <= DEMO_CAPACITY
    ensures Run(Framer(Body, body, out), text) == Framer(Body, body + text, out)
    ensures FirstBreak(Framer(Body, body, out), text).None?
    decreases |text|
  {
    if text == "" {
      assert body + text == body;
    } else {
      BodyRun(body + [text[0]], out, text[1..]);
      assert body + [text[0]] + text[1..] == body + text;
    }
  }

  /** A gap followed by an opened frame. */
  lemma OpenFrame(out: seq<string>, gap: string, text: string)
    requires STX !in gap && AllPrint(text) && |text| <= DEMO_CAPACITY
    ensures Run(Framer(Idle, "", out), gap + [STX] + text) == Framer(Body, text, out)
    ensures FirstBreak(Framer(Idle, "", out), gap + [STX] + text).None?
  {
    var idle := Framer(Idle, "", out);
    assert gap + [STX] + text == gap + ([STX] + text);
    GapRun(out, gap);
    BreakConcat(idle, gap, [STX] + text);
    assert ([STX] + text)[1..] == text;
    BodyRun("", out, text);
    assert "" + text == text;
  }

  lemma CloseFrame(out: seq<string>, text: string, rest: string)
    ensures Run(Framer(Body, text, out), [ETX] + rest) == Run(Framer(Idle, "", out + [text]), rest)
    ensures FirstBreak(Framer(Body, text, out), [ETX] + rest) == FirstBreak(Framer(Idle, "", out + [text]), rest)
  {
    assert ([ETX] + rest)[1..] == rest;
  }

  /** The reference functions at the first frame. */
  lemma FirstFrame(out: seq<string>, s: string, i: nat, j: nat)
    requires i == IndexOf(s, STX, 0) < |s| && j == IndexOf(s, ETX, i + 1)
    ensures j == |s| ==> After(out, s) == Framer(Body, s[i + 1..], out)
    ensures j < |s| ==> After(out, s) == After(out + [s[i + 1..j]], s[j + 1..])
  {
    hide IndexOf, Messages, Unfinished;
    MessagesAt(s, i, j);
    UnfinishedAt(s, i, j);
    if j == |s| {
      assert out + [] == out;
    } else {
      assert out + [s[i + 1..j]] + Messages(s[j + 1..]) == out + ([s[i + 1..j]] + Messages(s[j + 1..]));
    }
  }

  lemma MessagesAt(s: string, i: nat, j: nat)
    requires i == IndexOf(s, STX, 0) < |s| && j == IndexOf(s, ETX, i + 1)
    ensures Messages(s) == if j == |s| then [] else [s[i + 1..j]] + Messages(s[j + 1..])
  {
    hide IndexOf;
  }

  lemma UnfinishedAt(s: string, i: nat, j: nat)
    requires i == IndexOf(s, STX, 0) < |s| && j == IndexOf(s, ETX, i + 1)
    ensures Unfinished(s) == if j == |s| then Some(s[i + 1..]) else Unfinished(s[j + 1..])
  {
    hide IndexOf;
  }

  lemma FirstFrameIntact(s: string, i: nat, j: nat)
    requires Intact(s) && i == IndexOf(s, STX, 0) < |s| && j == IndexOf(s, ETX, i + 1)
    ensures AllPrint(s[i + 1..j]) && j - i - 1 <= DEMO_CAPACITY && (j < |s| ==> Intact(s[j + 1..]))
  {
    hide IndexOf, AllPrint;
  }

  lemma NoFrame(out: seq<string>, s: string)
    requires IndexOf(s, STX, 0) == |s|
    ensures After(out, s) == Framer(Idle, "", out)
  {
    assert out + [] == out;
  }

  /** An intact stream never breaks and leaves what the reference says. */
  lemma {:induction false} IntactRun(out: seq<string>, s: string)
    requires Intact(s)
    ensures Run(Framer(Idle, "", out), s) == After(out, s)
    ensures FirstBreak(Framer(Idle, "", out), s).None?
    decreases |s|
  {
    hide Run, FirstBreak, IndexOf, After, Intact, AllPrint;
    var i := IndexOf(s, STX, 0);
    if i == |s| {
      GapRun(out, s);
      NoFrame(out, s);
    } else {
      var j := IndexOf(s, ETX, i + 1);
      FirstFrame(out, s, i, j);
      FirstFrameIntact(s, i, j);
      var text := s[i + 1..j];
      assert s == (s[..i] + [STX] + text) + s[j..];
      OpenFrame(out, s[..i], text);
      BreakConcat(Framer(Idle, "", out), s[..i] + [STX] + text, s[j..]);
      if j == |s| {
        assert s[j..] == "" && text == s[i + 1..];
        NothingMore(Framer(Body, text, out));
      } else {
        assert s[j..] == [ETX] + s[j + 1..];
        CloseFrame(out, text, s[j + 1..]);
        IntactRun(out + [text], s[j + 1..]);
      }
    }
  }

  lemma NothingMore(st: Framer)
    ensures Run(st, "") == st && FirstBreak(st, "").None?
  {
  }

  /** However an intact stream is cut into reads, the parser delivers exactly its messages and
      keeps exactly its unfinished frame. */
  lemma IntactStream(chunks: seq<string>)
    requires NonEmpty(chunks) && Intact(Flat(chunks))
    ensures Chunks(Demo, Init, chunks) == After([], Flat(chunks))
  {
    IntactRun([], Flat(chunks));
    CanonicalForm(Init, chunks);
  }

  // ----- when a frame outgrows its buffer

  /** Index of the first byte at or after `from` that is not printable, or the length. */
  function TextEnd(s: string, from: nat): (k: nat)
    requires from <= |s|
    ensures from <= k <= |s| && (k < |s| ==> !IsPrint(s[k])) && AllPrint(s[from..k])
    decreases |s| - from
  {
    if from == |s| || !IsPrint(s[from]) then from else TextEnd(s, from + 1)
  }

  /** Before any frame is broken, one has more printable bytes than its buffer takes. */
  predicate Overflows(s: string)
    decreases |s|
  {
    var i := IndexOf(s, STX, 0);
    i < |s| &&
      var k := TextEnd(s, i + 1);
      k - i - 1 > DEMO_CAPACITY || (k < |s| && s[k] == ETX && Overflows(s[k + 1..]))
  }

  /** The frames before that one. */
  function WholeFrames(s: string): seq<string>
    decreases |s|
  {
    var i := IndexOf(s, STX, 0);
    if i == |s| then [] else
    var k := TextEnd(s, i + 1);
    if k - i - 1 > DEMO_CAPACITY || k == |s| || s[k] != ETX then [] else [s[i + 1..k]] + WholeFrames(s[k + 1..])
  }

  lemma {:induction false} BodyOverflow(body: string, out: seq<string>, text: string)
    requires AllPrint(text) && |body| <= DEMO_CAPACITY < |body| + |text|
    ensures Run(Framer(Body, body, out), text) == Halted(out)
    ensures FirstBreak(Framer(Body, body, out), text).None?
    decreases |text|
  {
    if |body| == DEMO_CAPACITY {
      HaltedRun(out, text[1..]);
    } else {
      BodyOverflow(body + [text[0]], out, text[1..]);
    }
  }

  lemma OpenOverflow(out: seq<string>, gap: string, text: string, rest: string)
    requires STX !in gap && AllPrint(text) && |text| > DEMO_CAPACITY
    ensures Run(Framer(Idle, "", out), gap + [STX] + text + rest) == Halted(out)
    ensures FirstBreak(Framer(Idle, "", out), gap + [STX] + text + rest).None?
  {
    var idle := Framer(Idle, "", out);
    GapRun(out, gap);
    BodyOverflow("", out, text);
    BreakConcat(Framer(Body, "", out), text, rest);
    HaltedRun(out, rest);
    var frame := [STX] + (text + rest);
    assert frame[1..] == text + rest;
    BreakConcat(idle, gap, frame);
    assert gap + [STX] + text + rest == gap + frame;
  }

  lemma OverflowsAt(s: string, i: nat, k: nat)
    requires i == IndexOf(s, STX, 0) < |s| && k == TextEnd(s, i + 1)
    ensures Overflows(s) <==> k - i - 1 > DEMO_CAPACITY || (k < |s| && s[k] == ETX && Overflows(s[k + 1..]))
    ensures WholeFrames(s)
         == if k - i - 1 > DEMO_CAPACITY || k == |s| || s[k] != ETX then [] else [s[i + 1..k]] + WholeFrames(s[k + 1..])
  {
    hide IndexOf, TextEnd;
  }

  lemma BreakStops(out: seq<string>, text: string, w: string)
    requires w != "" && Breaks(w[0])
    ensures FirstBreak(Framer(Body, text, out), w).Some?
  {
  }

  /** Up to the first broken frame the machine halts exactly on overflow, behind the whole frames. */
  lemma {:induction false} OverflowRun(out: seq<string>, s: string)
    ensures Overflows(s) ==> FirstBreak(Framer(Idle, "", out), s).None?
                             && Run(Framer(Idle, "", out), s) == Halted(out + WholeFrames(s))
    ensures !Overflows(s) && FirstBreak(Framer(Idle, "", out), s).None? ==> Run(Framer(Idle, "", out), s).Framer?
    decreases |s|
  {
    hide Run, FirstBreak, IndexOf, TextEnd, Overflows, WholeFrames, AllPrint;
    var idle, i := Framer(Idle, "", out), IndexOf(s, STX, 0);
    if i == |s| {
      GapRun(out, s);
      NoOverflow(s);
    } else {
      var k := TextEnd(s, i + 1);
      OverflowsAt(s, i, k);
      var text := s[i + 1..k];
      var open := s[..i] + [STX] + text;
      assert s == open + s[k..];
      if |text| > DEMO_CAPACITY {
        OpenOverflow(out, s[..i], text, s[k..]);
        assert out + [] == out;
      } else {
        OpenFrame(out, s[..i], text);
        BreakConcat(idle, open, s[k..]);
        AfterText(out, s, text, k);
      }
    }
  }

  lemma NoOverflow(s: string)
    requires IndexOf(s, STX, 0) == |s|
    ensures !Overflows(s)
  {
  }

  /** The rest of a stream behind the text of an opened frame. */
  lemma AfterText(out: seq<string>, s: string, text: string, k: nat)
    requires k <= |s| && (k < |s| ==> !IsPrint(s[k]))
    ensures var w, inFrame := s[k..], Framer(Body, text, out);
            if k == |s| then Run(inFrame, w) == inFrame && FirstBreak(inFrame, w).None?
            else if s[k] != ETX then FirstBreak(inFrame, w).Some?
            else var rest, next := s[k + 1..], Framer(Idle, "", out + [text]);
                 && (Overflows(rest) ==> FirstBreak(inFrame, w).None?
                                         && Run(inFrame, w) == Halted(out + ([text] + WholeFrames(rest))))
                 && (!Overflows(rest) && FirstBreak(inFrame, w).None? ==> Run(inFrame, w).Framer?)
    decreases |s| - k, 0
  {
    hide Run, FirstBreak, Overflows, WholeFrames;
    if k == |s| {
      assert s[k..] == "";
      NothingMore(Framer(Body, text, out));
    } else if s[k] != ETX {
      BreakStops(out, text, s[k..]);
    } else {
      assert s[k..] == [ETX] + s[k + 1..];
      CloseFrame(out, text, s[k + 1..]);
      OverflowRun(out + [text], s[k + 1..]);
      assert out + [text] + WholeFrames(s[k + 1..]) == out + ([text] + WholeFrames(s[k + 1..]));
    }
  }

  /** However a stream is cut: a frame that overflows before any is broken halts the parser, behind
      exactly the frames before it; and where the cuts do not matter nothing else does. */
  lemma OverflowHalts(chunks: seq<string>)
    requires NonEmpty(chunks)
    ensures Overflows(Flat(chunks)) ==> Chunks(Demo, Init, chunks) == Halted(WholeFrames(Flat(chunks)))
    ensures !CutsMatter(Init, Flat(chunks)) ==> (Chunks(Demo, Init, chunks).Halted? <==> Overflows(Flat(chunks)))
  {
    hide Run, FirstBreak, Overflows, WholeFrames, Chunks, Risky;
    OverflowRun([], Flat(chunks));
    assert [] + WholeFrames(Flat(chunks)) == WholeFrames(Flat(chunks));
    if !CutsMatter(Init, Flat(chunks)) {
      CanonicalForm(Init, chunks);
    }
  }

  // ----- serialized messages

  /** demo_msg_serialize as a value. */
  function Serialize(body: string): string { [STX] + body + [ETX] }

  predicate Legal(body: string) { AllPrint(body) && |body| <= DEMO_CAPACITY }

  /** A frame on the wire is the byte 2, at most 1024 printing characters, and the byte 3. */
  lemma FramesOnTheWire(body: string)
    ensures Serialize(body) == [2 as char] + body + [3 as char]
    ensures Legal(body) <==> |body| <= 1024 && forall i :: 0 <= i < |body| ==> Printing(body[i])
  {
    AllPrintIs(body);
  }

  /** Serialized messages with arbitrary STX-free bytes in front of each and at the end. */
  function Transmission(gaps: seq<string>, bodies: seq<string>): string
    requires |gaps| == |bodies| + 1
    decreases |bodies|
  {
    if bodies == [] then gaps[0] else gaps[0] + Serialize(bodies[0]) + Transmission(gaps[1..], bodies[1..])
  }

  lemma {:induction false} TransmissionRun(out: seq<string>, gaps: seq<string>, bodies: seq<string>)
    requires |gaps| == |bodies| + 1
    requires forall g <- gaps :: STX !in g
    requires forall b <- bodies :: Legal(b)
    ensures Run(Framer(Idle, "", out), Transmission(gaps, bodies)) == Framer(Idle, "", out + bodies)
    ensures FirstBreak(Framer(Idle, "", out), Transmission(gaps, bodies)).None?
    decreases |bodies|
  {
    hide Run, FirstBreak;
    if bodies == [] {
      GapRun(out, gaps[0]);
      assert out + bodies == out;
    } else {
      assert gaps[0] in gaps && bodies[0] in bodies;
      var rest := Transmission(gaps[1..], bodies[1..]);
      var open := gaps[0] + [STX] + bodies[0];
      assert Transmission(gaps, bodies) == open + ([ETX] + rest);
      OpenFrame(out, gaps[0], bodies[0]);
      BreakConcat(Framer(Idle, "", out), open, [ETX] + rest);
      CloseFrame(out, bodies[0], rest);
      TransmissionRun(out + [bodies[0]], gaps[1..], bodies[1..]);
      assert out + [bodies[0]] + bodies[1..] == out + bodies;
    }
  }

  /** Parsing undoes serializing: any list of legal bodies, with STX-free noise between the
      frames and read in any pieces, is delivered exactly and in order, with nothing pending. */
  lemma SerializeThenParse(gaps: seq<string>, bodies: seq<string>, chunks: seq<string>)
    requires |gaps| == |bodies| + 1
    requires forall g <- gaps :: STX !in g
    requires forall b <- bodies :: Legal(b)
    requires NonEmpty(chunks) && Flat(chunks) == Transmission(gaps, bodies)
    ensures Chunks(Demo, Init, chunks) == Framer(Idle, "", bodies)
  {
    TransmissionRun([], gaps, bodies);
    CanonicalForm(Init, chunks);
    assert [] + bodies == bodies;
  }

  // ----- safety on every stream

  predicate Subsequence(a: string, b: string)
    decreases |b|
  {
    || a == ""
    || (b != "" && a[|a| - 1] == b[|b| - 1] && Subsequence(a[..|a| - 1], b[..|b| - 1]))
    || (b != "" && Subsequence(a, b[..|b| - 1]))
  }

  lemma SubsequenceStep(a: string, b: string, c: char)
    requires Subsequence(a, b)
    ensures Subsequence(a, b + [c]) && Subsequence(a + [c], b + [c])
  {
    assert (b + [c])[..|b|] == b && (a + [c])[..|a|] == a;
  }

  lemma {:induction false} SubsequencePrefix(a: string, x: string, b: string)
    requires Subsequence(a + x, b)
    ensures Subsequence(a, b)
    decreases |b|
  {
    if a != "" {
      var w := a + x;
      if w[|w| - 1] == b[|b| - 1] && Subsequence(w[..|w| - 1], b[..|b| - 1]) {
        if x == "" {
          assert w == a;
        } else {
          assert w[..|w| - 1] == a + x[..|x| - 1];
          SubsequencePrefix(a, x[..|x| - 1], b[..|b| - 1]);
        }
      } else {
        SubsequencePrefix(a, x, b[..|b| - 1]);
      }
    }
  }

  /** What is pending; nothing once the parser has halted. */
  function Pending(st: Framer): string { if st.Framer? then st.body else "" }

  predicate Printable(st: Framer) {
    && (forall m <- st.out :: AllPrint(m) && |m| <= DEMO_CAPACITY)
    && AllPrint(Pending(st)) && |Pending(st)| <= DEMO_CAPACITY
  }

  /** Everything delivered or pending is printable, and was received in that order. */
  ghost predicate Safe(st: Framer, received: string) {
    Printable(st) && Subsequence(Flat(st.out) + Pending(st), received)
  }

  lemma PrintableByte(st: Framer, ch: char, last: bool)
    requires Printable(st)
    ensures Printable(DemoByte(st, ch, last))
  {
  }

  /** A delivery moves the pending body into the delivered text and changes nothing else in it. */
  lemma DeliveredText(out: seq<string>, body: string)
    ensures Flat(out + [body]) + "" == Flat(out) + body
  {
    FlatConcat(out, [body]);
    OneChunk(Init, body);
  }

  lemma ByteEffects(st: Framer, ch: char, last: bool)
    ensures var next, body := DemoByte(st, ch, last), Pending(st);
            if next.out == st.out then Pending(next) == body || Pending(next) == body + [ch] || Pending(next) == ""
            else next.out == st.out + [body] && Pending(next) == ""
  {
  }

  lemma SafeByte(st: Framer, received: string, ch: char, last: bool)
    requires Safe(st, received)
    ensures Safe(DemoByte(st, ch, last), received + [ch])
  {
    hide Subsequence, Flat, Printable, DemoByte, Pending;
    var next, body := DemoByte(st, ch, last), Pending(st);
    PrintableByte(st, ch, last);
    ByteEffects(st, ch, last);
    var text := Flat(st.out) + body;
    SubsequenceStep(text, received, ch);
    if next.out != st.out {
      DeliveredText(st.out, body);
    } else if Pending(next) == "" {
      SubsequencePrefix(Flat(st.out), body, received + [ch]);
      assert Flat(st.out) + "" == Flat(st.out);
    } else if Pending(next) != body {
      assert text + [ch] == Flat(st.out) + (body + [ch]);
    }
  }

  lemma {:induction false} SafeChunk(st: Framer, received: string, chunk: string)
    requires Safe(st, received)
    ensures Safe(Chunk(Demo, st, chunk), received + chunk)
    decreases |chunk|
  {
    hide Safe, DemoByte;
    if chunk == "" {
      assert received + chunk == received;
    } else {
      SafeByte(st, received, chunk[0], |chunk| == 1);
      SafeChunk(DemoByte(st, chunk[0], |chunk| == 1), received + [chunk[0]], chunk[1..]);
      assert received + [chunk[0]] + chunk[1..] == received + chunk;
    }
  }

  lemma {:induction false} SafeChunks(st: Framer, received: string, chunks: seq<string>)
    requires Safe(st, received)
    ensures Safe(Chunks(Demo, st, chunks), received + Flat(chunks))
    decreases |chunks|
  {
    hide Safe, Chunk;
    if chunks == [] {
      assert received + Flat(chunks) == received;
    } else {
      SafeChunk(st, received, chunks[0]);
      SafeChunks(Chunk(Demo, st, chunks[0]), received + chunks[0], chunks[1..]);
      assert received + chunks[0] + Flat(chunks[1..]) == received + Flat(chunks);
    }
  }

  /** On any stream, cut in any way, only printable bodies of bounded length are delivered, and
      deliveries followed by the pending body are a subsequence of what was received; this still
      holds of the deliveries when the parser has halted. */
  lemma SafeOnEveryStream(chunks: seq<string>)
    ensures Safe(Chunks(Demo, Init, chunks), Flat(chunks))
  {
    SafeChunks(Init, "", chunks);
    assert "" + Flat(chunks) == Flat(chunks);
  }

  // ----- resynchronisation

  lemma {:induction false} RecoveryEndsWith(st: Framer, chunk: string)
    requires chunk != ""
    ensures Chunk(Demo, st, chunk) == DemoByte(BeforeLast(st, chunk), chunk[|chunk| - 1], true)
    decreases |chunk|
  {
    if |chunk| == 1 {
      assert chunk[1..] == "";
    } else {
      RecoveryEndsWith(DemoByte(st, chunk[0], false), chunk[1..]);
    }
  }

  /** The state in which the last byte of a chunk is read. */
  function BeforeLast(st: Framer, chunk: string): Framer
    requires chunk != ""
    decreases |chunk|
  {
    if |chunk| == 1 then st else BeforeLast(DemoByte(st, chunk[0], false), chunk[1..])
  }

  /** A chunk that ends in recovery leaves nothing pending, unless its very last byte is the one
      that broke a frame: then the bytes of that frame stay pending. */
  lemma PendingAfterRecovery(st: Framer, chunk: string)
    requires chunk != "" && Chunk(Demo, st, chunk).Framer? && Chunk(Demo, st, chunk).mode.Recovery?
    ensures var before := BeforeLast(st, chunk);
            && before.Framer? && !before.mode.Idle?
            && Chunk(Demo, st, chunk).body == (if before.mode.Body? then before.body else "")
  {
    RecoveryEndsWith(st, chunk);
  }

  /** The next chunk with a whole frame behind STX-free bytes delivers that frame behind whatever
      was left pending, or halts when both together outgrow the buffer; so it delivers exactly the
      frame if and only if nothing was pending. */
  lemma Resynchronises(pending: string, out: seq<string>, gap: string, body: string)
    requires STX !in gap && Legal(body) && |pending| <= DEMO_CAPACITY
    ensures var end := Chunk(Demo, Framer(Recovery, pending, out), gap + Serialize(body));
            && end == (if |pending| + |body| <= DEMO_CAPACITY then Framer(Idle, "", out + [pending + body])
                       else Halted(out))
            && (end == Framer(Idle, "", out + [body]) <==> pending == "")
  {
    hide Run, FirstBreak, Chunk, AllPrint;
    var w := gap + Serialize(body);
    assert w[|gap| + 1..] == body + [ETX];
    WaitForStx(pending, out, w, |gap|);
    var inFrame := Framer(Body, pending, out);
    if |pending| + |body| <= DEMO_CAPACITY {
      BodyRun(pending, out, body);
      assert [ETX] == [ETX] + "";
      CloseFrame(out, pending + body, "");
      NothingMore(Framer(Idle, "", out + [pending + body]));
    } else {
      BodyOverflow(pending, out, body);
      HaltedRun(out, [ETX]);
      HaltHasNoBreak(out, [ETX]);
    }
    BreakConcat(inFrame, body, [ETX]);
    ChunkUpToBreak(inFrame, body + [ETX]);
    assert (out + [pending + body])[|out|] == pending + body && (out + [body])[|out|] == body;
    assert pending == "" ==> pending + body == body;
  }

  lemma HaltHasNoBreak(out: seq<string>, s: string)
    ensures FirstBreak(Halted(out), s).None?
  {
  }

  /** Left-over bytes do reach a delivered message: two reads, the first ending with the byte
      that breaks its frame. */
  lemma LeftoverIsDelivered()
    ensures Chunks(Demo, Init, [[STX, 'a', '\U{0001}'], [STX, 'b', ETX]]) == Framer(Idle, "", ["ab"])
  {
    var first, second := [STX, 'a', '\U{0001}'], [STX, 'b', ETX];
    assert first[1..] == ['a', '\U{0001}'] && first[1..][1..] == ['\U{0001}'];
    assert Chunk(Demo, Init, first) == Framer(Recovery, "a", []) by {
      assert Chunk(Demo, Init, first) == Chunk(Demo, Framer(Body, "", []), ['a', '\U{0001}']);
      assert ['\U{0001}'][1..] == "";
    }
    assert second == "" + Serialize("b");
    Resynchronises("a", [], "", "b");
    assert "a" + "b" == "ab" && [] + ["a" + "b"] == ["ab"];
    assert [first, second][1..] == [second];
    OneChunk(Framer(Recovery, "a", []), second);
  }
}
