/** The resumable message parsers and the serializers, over IOBuffers.

    `MsgParser` is the parser selected at compile time by msg_selection_header.h.  A delivered
    message is handed to the callback and belongs to it from then on; it is modelled by the text
    of its body. */
module MsgParsers {
  import opened Wrappers
  import opened Framing
  import opened DemoStreams
  import opened IOBuffers

  class MsgParser {
    const kind: Kind
    var mode: Mode
    var body: IOBuffer  // the buffer of the message being read

    ghost predicate Valid()
      reads this, body, body.mem
    {
      && body.Valid() && body.ptr == 0 && body.capacity == Capacity(kind)
      && (body.remaining > 0 ==> body.Terminated())
      && (kind.Newline? ==> mode.Idle?)
    }

    /** The parser as a value, behind messages delivered so far. */
    ghost function State(out: seq<string>): Framer
      requires Valid()
      reads this, body, body.mem
    {
      Framer(mode, body.Data(), out)
    }

    constructor (kind: Kind)
      ensures Valid() && this.kind == kind && State([]) == Init && fresh(body) && fresh(body.mem)
    {
      this.kind := kind;
      mode := Idle;
      body := new IOBuffer(Capacity(kind));
    }

    /** IOBuffer_commit_push_back on the message buffer; its capacity assertion fails when `!ok`. */
    method PushBack(ch: char) returns (ok: bool)
      requires Valid()
      modifies body`remaining, body.mem
      ensures Valid() && ok == (|old(body.Data())| < Capacity(kind))
      ensures body.Data() == if ok then old(body.Data()) + [ch] else old(body.Data())
    {
      ok := body.SpaceLen() >= 1;
      if ok {
        body.DataAdd([ch]);
      }
    }

    /** Hands the current message to the callback and starts a new one. */
    method Deliver() returns (message: string)
      requires Valid()
      modifies this`body
      ensures Valid() && message == old(body.Data()) && body.Data() == ""
      ensures fresh(body) && fresh(body.mem)
    {
      message := body.mem[body.ptr..body.ptr + body.remaining];
      body := new IOBuffer(Capacity(kind));
    }

    /** The switch of demo_msg_parser_consume. */
    method DemoStep(ch: char, last: bool) returns (ok: bool, msgs: seq<string>)
      requires Valid() && kind.Demo?
      modifies this, body, body.mem
      ensures Valid()
      ensures body == old(body) || fresh(body)
      ensures body.mem == old(body.mem) || fresh(body.mem)
      ensures DemoByte(old(State([])), ch, last) == if ok then State(msgs) else Halted(msgs)
    {
      ok, msgs := true, [];
      match mode {
        case Idle =>
          if ch == STX {
            mode := Body;
          }
        case Body =>
          if IsPrint(ch) {
            ok := PushBack(ch);
          } else if ch == ETX {
            var message := Deliver();
            msgs := [message];
            mode := Idle;
          } else {
            mode := Recovery;
          }
        case Recovery =>
          if ch == STX && !last {
            mode := Body;
          } else if last {
            body := new IOBuffer(DEMO_CAPACITY);
          }
      }
    }

    /** The byte at position `at` of the block, which is also the first unconsumed one. */
    static method ReadByte(iob: IOBuffer, at: nat) returns (ch: char)
      requires iob.Valid() && iob.remaining > 0 && iob.ptr == at
      modifies iob`ptr, iob`remaining
      ensures iob.Valid() && iob.remaining == old(iob.remaining) - 1 && (iob.remaining > 0 ==> iob.ptr == at + 1)
      ensures at < iob.mem.Length && ch == iob.mem[at]
    {
      var ch2 := iob.mem[iob.ptr];
      iob.Consume(1);
      ch := iob.mem[at];
      assert ch == ch2;
    }

    /** One iteration of demo_msg_parser_consume, behind messages delivered earlier in the call. */
    method DemoIteration(iob: IOBuffer, at: nat, last: bool, ghost out: seq<string>)
        returns (ok: bool, msgs: seq<string>)
      requires Valid() && kind.Demo? && iob.Valid()
      requires iob.remaining > 0 && iob.ptr == at && last == (iob.remaining == 1)
      requires iob != body && iob.mem != body.mem
      modifies this, body, body.mem, iob`ptr, iob`remaining
      ensures Valid() && iob.Valid() && iob.remaining == old(iob.remaining) - 1
      ensures iob.remaining > 0 ==> iob.ptr == at + 1
      ensures body == old(body) || fresh(body)
      ensures body.mem == old(body.mem) || fresh(body.mem)
      ensures Chunk(Demo, old(State(out)), old(iob.Data()))
           == if ok then Chunk(Demo, State(out + msgs), iob.Data()) else Halted(out + msgs)
    {
      hide DemoByte, Chunk;
      ghost var before, rest := State([]), iob.Data();
      var ch := ReadByte(iob, at);
      assert rest[0] == ch && iob.Data() == rest[1..];
      ok, msgs := DemoStep(ch, last);
      if ok {
        StepBehind(Demo, out, before, rest, msgs);
      } else {
        HaltBehind(Demo, out, before, rest, msgs);
      }
    }

    /** demo_msg_parser_consume: empties the buffer and leaves what `Chunk` says, unless a message
        outgrows its buffer. */
    method ConsumeDemo(iob: IOBuffer) returns (ok: bool, msgs: seq<string>)
      requires Valid() && kind.Demo? && iob.Valid() && iob.remaining > 0
      requires iob != body && iob.mem != body.mem
      modifies this, body, body.mem, iob`ptr, iob`remaining
      ensures Valid() && iob.Valid()
      ensures body == old(body) || fresh(body)
      ensures body.mem == old(body.mem) || fresh(body.mem)
      ensures Chunk(Demo, old(State([])), old(iob.Data())) == if ok then State(msgs) else Halted(msgs)
      ensures ok ==> iob.Data() == ""
    {
      hide Chunk;
      var start, length := iob.ptr, iob.remaining;
      msgs := [];
      var i := 0;
      while i < length
        invariant 0 <= i <= length && iob.remaining == length - i && Valid() && iob.Valid()
        invariant i < length ==> iob.ptr == start + i
        invariant body == old(body) || fresh(body)
        invariant body.mem == old(body.mem) || fresh(body.mem)
        invariant Chunk(Demo, State(msgs), iob.Data()) == Chunk(Demo, old(State([])), old(iob.Data()))
      {
        var delivered;
        ok, delivered := DemoIteration(iob, start + i, i == length - 1, msgs);
        msgs := msgs + delivered;
        if !ok {
          return;
        }
        i := i + 1;
      }
      NothingLeft(Demo, State(msgs));
      ok := true;
    }

    /** The loop body of newline_msg_parser_consume. */
    method NewlineStep(ch: char) returns (ok: bool, msgs: seq<string>)
      requires Valid() && kind.Newline?
      modifies this, body, body.mem
      ensures Valid()
      ensures body == old(body) || fresh(body)
      ensures body.mem == old(body.mem) || fresh(body.mem)
      ensures NewlineByte(old(State([])), ch) == if ok then State(msgs) else Halted(msgs)
    {
      ok, msgs := true, [];
      if ch == '\n' || ch == '\0' {
        var message := Deliver();
        msgs := [message];
      } else {
        ok := PushBack(ch);
      }
    }

    /** newline_msg_parser_consume. */
    method ConsumeNewline(iob: IOBuffer) returns (ok: bool, msgs: seq<string>)
      requires Valid() && kind.Newline? && iob.Valid()
      requires iob != body && iob.mem != body.mem
      modifies this, body, body.mem, iob`ptr, iob`remaining
      ensures Valid() && iob.Valid()
      ensures body == old(body) || fresh(body)
      ensures body.mem == old(body.mem) || fresh(body.mem)
      ensures Chunk(Newline, old(State([])), old(iob.Data())) == if ok then State(msgs) else Halted(msgs)
      ensures ok ==> iob.Data() == ""
    {
      hide NewlineByte, Chunk;
      msgs := [];
      while iob.remaining != 0
        invariant Valid() && iob.Valid()
        invariant body == old(body) || fresh(body)
        invariant body.mem == old(body.mem) || fresh(body.mem)
        invariant Chunk(Newline, State(msgs), iob.Data()) == Chunk(Newline, old(State([])), old(iob.Data()))
        decreases iob.remaining
      {
        ghost var chunk := iob.Data();
        ghost var before := State([]);
        var ch := iob.PopFront();
        assert chunk[0] == ch && chunk[1..] == iob.Data();
        var delivered;
        ok, delivered := NewlineStep(ch);
        if !ok {
          HaltBehind(Newline, msgs, before, chunk, delivered);
          msgs := msgs + delivered;
          return;
        }
        StepBehind(Newline, msgs, before, chunk, delivered);
        msgs := msgs + delivered;
      }
      NothingLeft(Newline, State(msgs));
      ok := true;
    }

    /** MSG_PARSER_CONSUME. */
    method Consume(iob: IOBuffer) returns (ok: bool, msgs: seq<string>)
      requires Valid() && iob.Valid() && iob.remaining > 0
      requires iob != body && iob.mem != body.mem
      modifies this, body, body.mem, iob`ptr, iob`remaining
      ensures Valid() && iob.Valid()
      ensures body == old(body) || fresh(body)
      ensures body.mem == old(body.mem) || fresh(body.mem)
      ensures Chunk(kind, old(State([])), old(iob.Data())) == if ok then State(msgs) else Halted(msgs)
      ensures ok ==> iob.Data() == ""
    {
      match kind {
        case Demo => ok, msgs := ConsumeDemo(iob);
        case Newline => ok, msgs := ConsumeNewline(iob);
      }
    }
  }

  // ----- serializers

  /** Formatting into a new buffer. */
  method PrintNew(capacity: nat, text: string) returns (r: Printing, iob: IOBuffer)
    ensures r.Printed? <==> 0 < |text| < capacity
    ensures r.Undefined? <==> |text| >= capacity && 2 * |text| > capacity
    ensures r.Printed? ==> iob.Valid() && fresh(iob) && iob.Data() == text
  {
    iob := new IOBuffer(capacity);
    assert iob.Data() + text == text;
    r := iob.Print(text);
  }

  /** demo_msg_serialize.  A body that was committed is always formatted; the text of one that never
      was is whatever its block holds up to the first NUL, if there is one. */
  method SerializeDemo(body: IOBuffer) returns (r: Printing, iob: IOBuffer)
    requires body.Valid()
    ensures r.Printed? <==> '\0' in body.Block() && |CString(body.Block())| < body.remaining + 62
    ensures r.Printed? ==> iob.Valid() && fresh(iob) && iob.Data() == Serialize(CString(body.Block()))
    ensures !r.Aborts?
    ensures body.Terminated() ==> r.Printed? && iob.Data() == Serialize(CString(body.Data()))
    ensures body.Terminated() && '\0' !in body.Data() ==> iob.Data() == Serialize(body.Data())
  {
    hide CString;
    CStringIsWhole(body.Data());
    body.TerminatedText();
    var text := body.CStr();
    if text.None? {
      iob := new IOBuffer(body.remaining + 64);
      return Undefined, iob;
    }
    r, iob := PrintNew(body.remaining + 64, [STX] + text.value + [ETX]);
  }

  /** A line the parser accepts and the serializer cannot print. */
  method LongLineIsUndefined(line: string) returns (r: Printing)
    requires |line| == 4095 && LegalLine(line)
    ensures r.Undefined?
  {
    assert '\0' !in line;
    var body := new IOBuffer(NEWLINE_CAPACITY);
    assert body.Data() + line == line;
    body.DataAdd(line);
    CStringIsWhole(line);
    var iob;
    r, iob := SerializeNewline(body);
  }

  /** newline_msg_serialize: defined exactly for texts of at most 4094 bytes, although the parser
      takes lines of 4096. */
  method SerializeNewline(body: IOBuffer) returns (r: Printing, iob: IOBuffer)
    requires body.Valid()
    ensures r.Printed? <==> '\0' in body.Block() && |CString(body.Block())| + 1 < NEWLINE_CAPACITY
    ensures r.Printed? ==> iob.Valid() && fresh(iob) && iob.Data() == SerializeLine(CString(body.Block()))
    ensures !r.Aborts?
    ensures body.Terminated() ==> '\0' in body.Block() && CString(body.Block()) == CString(body.Data())
    ensures r.Printed? && body.Terminated() && '\0' !in body.Data() ==> iob.Data() == SerializeLine(body.Data())
  {
    hide CString;
    CStringIsWhole(body.Data());
    body.TerminatedText();
    var text := body.CStr();
    if text.None? {
      iob := new IOBuffer(NEWLINE_CAPACITY);
      return Undefined, iob;
    }
    r, iob := PrintNew(NEWLINE_CAPACITY, text.value + ['\n']);
  }
}
