/** The demo framing read frame by frame instead of byte by byte, for every state and every chunk, and
    with it the exact condition under which a message outgrows its buffer. */
module DemoFrames {
  import opened Framing
  import opened DemoFraming
  import opened DemoStreams

  /** What one call of the parser does to a chunk: skip to the next STX, take the printable text
      behind it, close the frame or give it up.  In recovery the last byte opens no frame, and a
      chunk that stays in recovery drops what was pending. */
  function ReadFrames(mode: Mode, pending: string, out: seq<string>, w: string): Framer
    decreases |w|
  {
    match mode
    case Idle =>
      var i := IndexOf(w, STX, 0);
      if i == |w| then Framer(Idle, pending, out) else ReadFrames(Body, pending, out, w[i + 1..])
    case Body =>
      var k := TextEnd(w, 0);
      var body := pending + w[..k];
      if |body| > DEMO_CAPACITY then Halted(out)
      else if k == |w| then Framer(Body, body, out)
      else if w[k] == ETX then ReadFrames(Idle, "", out + [body], w[k + 1..])
      else ReadFrames(Recovery, body, out, w[k + 1..])
    case Recovery =>
      var i := IndexOf(w, STX, 0);
      if w == "" then Framer(Recovery, pending, out)
      else if i < |w| - 1 then ReadFrames(Body, pending, out, w[i + 1..])
      else Framer(Recovery, "", out)
  }

  lemma {:induction false} SkipToStx(pending: string, out: seq<string>, w: string, i: nat)
    requires i <= |w| && (forall j :: 0 <= j < i ==> w[j] != STX) && (i < |w| ==> w[i] == STX)
    ensures Chunk(Demo, Framer(Idle, pending, out), w)
         == if i == |w| then Framer(Idle, pending, out) else Chunk(Demo, Framer(Body, pending, out), w[i + 1..])
    decreases i
  {
    if i > 0 {
      SkipToStx(pending, out, w[1..], i - 1);
      if i < |w| {
        assert w[1..][i..] == w[i + 1..];
      }
    }
  }

  lemma {:induction false} TakeText(pending: string, out: seq<string>, w: string, k: nat)
    requires k <= |w| && AllPrint(w[..k]) && |pending| <= DEMO_CAPACITY
    ensures Chunk(Demo, Framer(Body, pending, out), w)
         == if |pending| + k > DEMO_CAPACITY then Halted(out)
            else Chunk(Demo, Framer(Body, pending + w[..k], out), w[k..])
    decreases k
  {
    if k == 0 {
      assert pending + w[..0] == pending && w[0..] == w;
    } else {
      assert IsPrint(w[..k][0]);
      if |pending| == DEMO_CAPACITY {
        HaltedStays(Demo, out, w[1..]);
      } else {
        assert w[1..][..k - 1] == w[..k][1..];
        TakeText(pending + [w[0]], out, w[1..], k - 1);
        assert pending + [w[0]] + w[1..][..k - 1] == pending + w[..k] && w[1..][k - 1..] == w[k..];
      }
    }
  }

  lemma {:induction false} DropPending(pending: string, out: seq<string>, w: string)
    requires w != "" && forall j :: 0 <= j < |w| - 1 ==> w[j] != STX
    ensures Chunk(Demo, Framer(Recovery, pending, out), w) == Framer(Recovery, "", out)
    decreases |w|
  {
    if |w| == 1 {
      assert w[1..] == "";
    } else {
      DropPending(pending, out, w[1..]);
    }
  }

  /** The byte behind the text of a frame. */
  lemma EndOfText(body: string, out: seq<string>, w: string)
    requires w != "" && !IsPrint(w[0])
    ensures Chunk(Demo, Framer(Body, body, out), w)
         == if w[0] == ETX then Chunk(Demo, Framer(Idle, "", out + [body]), w[1..])
            else Chunk(Demo, Framer(Recovery, body, out), w[1..])
  {
  }

  /** The byte machine is the frame reader, on every chunk and from every state. */
  lemma {:induction false} DemoIsFrames(mode: Mode, pending: string, out: seq<string>, w: string)
    requires |pending| <= DEMO_CAPACITY
    ensures Chunk(Demo, Framer(mode, pending, out), w) == ReadFrames(mode, pending, out, w)
    decreases |w|
  {
    hide Chunk, IndexOf, TextEnd, AllPrint;
    match mode {
      case Idle =>
        var i := IndexOf(w, STX, 0);
        SkipToStx(pending, out, w, i);
        if i < |w| {
          DemoIsFrames(Body, pending, out, w[i + 1..]);
        }
      case Body =>
        var k := TextEnd(w, 0);
        assert w[0..k] == w[..k];
        TakeText(pending, out, w, k);
        var body := pending + w[..k];
        if |body| <= DEMO_CAPACITY && k < |w| {
          EndOfText(body, out, w[k..]);
          assert w[k..][1..] == w[k + 1..];
          DemoIsFrames(Idle, "", out + [body], w[k + 1..]);
          DemoIsFrames(Recovery, body, out, w[k + 1..]);
        } else if |body| <= DEMO_CAPACITY {
          assert w[k..] == "";
          NothingLeft(Demo, Framer(Body, body, out));
        }
      case Recovery =>
        var i := IndexOf(w, STX, 0);
        if w == "" {
          NothingLeft(Demo, Framer(Recovery, pending, out));
        } else if i < |w| - 1 {
          WaitForStx(pending, out, w, i);
          DemoIsFrames(Body, pending, out, w[i + 1..]);
        } else {
          DropPending(pending, out, w);
        }
    }
  }

  // ----- when a message outgrows its buffer

  /** Behind `n` bytes left in the message, some frame of the chunk outgrows its buffer: its text, or
      its text behind what a broken frame left. */
  predicate FrameTooLong(mode: Mode, n: nat, w: string)
    decreases |w|
  {
    match mode
    case Idle => var i := IndexOf(w, STX, 0); i < |w| && FrameTooLong(Body, n, w[i + 1..])
    case Recovery => var i := IndexOf(w, STX, 0); i < |w| - 1 && FrameTooLong(Body, n, w[i + 1..])
    case Body =>
      var k := TextEnd(w, 0);
      || n + k > DEMO_CAPACITY
      || (k < |w| && w[k] == ETX && FrameTooLong(Idle, 0, w[k + 1..]))
      || (k < |w| && w[k] != ETX && FrameTooLong(Recovery, n + k, w[k + 1..]))
  }

  lemma {:induction false} FramesHalt(mode: Mode, pending: string, out: seq<string>, w: string)
    requires |pending| <= DEMO_CAPACITY
    ensures var r := ReadFrames(mode, pending, out, w);
            (r.Halted? <==> FrameTooLong(mode, |pending|, w)) && (r.Framer? ==> |r.body| <= DEMO_CAPACITY)
    decreases |w|
  {
    hide IndexOf, TextEnd, AllPrint;
    match mode {
      case Idle =>
        var i := IndexOf(w, STX, 0);
        if i < |w| {
          FramesHalt(Body, pending, out, w[i + 1..]);
        }
      case Body =>
        var k := TextEnd(w, 0);
        var body := pending + w[..k];
        if |body| <= DEMO_CAPACITY && k < |w| {
          FramesHalt(Idle, "", out + [body], w[k + 1..]);
          FramesHalt(Recovery, body, out, w[k + 1..]);
        }
      case Recovery =>
        var i := IndexOf(w, STX, 0);
        if i < |w| - 1 {
          FramesHalt(Body, pending, out, w[i + 1..]);
        }
    }
  }

  /** From any state and for any chunk, the demo parser halts exactly when a frame outgrows its buffer. */
  lemma DemoHaltsExactlyWhen(st: Framer, chunk: string)
    requires st.Framer? && |st.body| <= DEMO_CAPACITY
    ensures Chunk(Demo, st, chunk).Halted? <==> FrameTooLong(st.mode, |st.body|, chunk)
    ensures Chunk(Demo, st, chunk).Framer? ==> |Chunk(Demo, st, chunk).body| <= DEMO_CAPACITY
  {
    hide Chunk, ReadFrames, FrameTooLong;
    DemoIsFrames(st.mode, st.body, st.out, chunk);
    FramesHalt(st.mode, st.body, st.out, chunk);
  }

  /** Some read of the reading holds such a frame. */
  predicate ReadingTooLong(st: Framer, chunks: seq<string>)
    decreases |chunks|
  {
    st.Framer? && chunks != [] &&
      (FrameTooLong(st.mode, |st.body|, chunks[0])
       || ReadingTooLong(ReadFrames(st.mode, st.body, st.out, chunks[0]), chunks[1..]))
  }

  /** So for any stream and any way of cutting it, exactly the readings with such a frame halt. */
  lemma {:induction false} ReadingHaltsExactlyWhen(st: Framer, chunks: seq<string>)
    requires st.Framer? && |st.body| <= DEMO_CAPACITY
    ensures Chunks(Demo, st, chunks).Halted? <==> ReadingTooLong(st, chunks)
    decreases |chunks|
  {
    hide Chunk, ReadFrames, FrameTooLong;
    if chunks != [] {
      var next := Chunk(Demo, st, chunks[0]);
      DemoIsFrames(st.mode, st.body, st.out, chunks[0]);
      DemoHaltsExactlyWhen(st, chunks[0]);
      if next.Halted? {
        HaltedReading(next.out, chunks[1..]);
      } else {
        ReadingHaltsExactlyWhen(next, chunks[1..]);
      }
    }
  }

  lemma {:induction false} HaltedReading(out: seq<string>, chunks: seq<string>)
    ensures Chunks(Demo, Halted(out), chunks) == Halted(out)
    decreases |chunks|
  {
    if chunks != [] {
      HaltedStays(Demo, out, chunks[0]);
      HaltedReading(out, chunks[1..]);
    }
  }

  // ----- both framings

  predicate TooLong(kind: Kind, mode: Mode, n: nat, bytes: string) {
    if kind.Demo? then FrameTooLong(mode, n, bytes) else LineTooLong(n, bytes)
  }

  lemma HaltsExactlyWhen(kind: Kind, st: Framer, chunk: string)
    requires st.Framer? && |st.body| <= Capacity(kind)
    ensures Chunk(kind, st, chunk).Halted? <==> TooLong(kind, st.mode, |st.body|, chunk)
    ensures Chunk(kind, st, chunk).Framer? ==> |Chunk(kind, st, chunk).body| <= Capacity(kind)
  {
    hide Chunk, FrameTooLong, LineTooLong;
    if kind.Demo? {
      DemoHaltsExactlyWhen(st, chunk);
    } else {
      NewlineHaltsExactlyWhen(st, chunk);
    }
  }
}
