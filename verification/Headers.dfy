/** Reassembly of HTTP headers from the callbacks of the llhttp parser, and their lookup.

    llhttp is an arbitrary source of callbacks: each header arrives as some name pieces followed
    by some value pieces. */
module Headers {
  import opened Ascii
  import opened Framing
  import opened IOBuffers

  // ----- names

  /** toupper in the C locale. */
  function UpperChar(c: char): char {
    if 'a' <= c <= 'z' then (c as int - 32) as char else c
  }

  function Upper(s: string): (r: string)
    ensures |r| == |s| && forall i :: 0 <= i < |s| ==> r[i] == UpperChar(s[i])
  {
    seq(|s|, i requires 0 <= i < |s| => UpperChar(s[i]))
  }

  lemma UpperIsCapital(c: char)
    ensures UpperChar(c) == CapitalOf(c)
  {
  }

  lemma UpperIsCapitals(s: string)
    ensures Upper(s) == Capitals(s)
  {
    hide UpperChar, CapitalOf;
    forall i | 0 <= i < |s| ensures Upper(s)[i] == Capitals(s)[i] {
      UpperIsCapital(s[i]);
    }
  }

  datatype Header = Header(key: string, value: string)

  /** KVPair_new: the label is stored in upper case. */
  function NewPair(name: string, value: string): Header { Header(Upper(name), value) }

  // ----- the callbacks

  datatype HeaderState = Nothing | InField | InValue

  datatype Callback =
    | MessageBegin | FieldData(at: string) | ValueData(at: string) | HeadersComplete | MessageComplete

  datatype Parser = Parser(
    state: HeaderState,
    name: string, value: string,     // m_name_buf, m_value_buf
    headers: seq<Header>,            // of the current message
    messages: seq<seq<Header>>)      // the headers of the messages handed on

  datatype Outcome = Ok(p: Parser) | Aborted

  const Start := Parser(Nothing, "", "", [], [])

  /** A complete header in the buffers moves to the message. */
  function Flush(p: Parser): Parser {
    if p.name != "" then p.(headers := p.headers + [NewPair(p.name, p.value)], name := "", value := "") else p
  }

  function Step(p: Parser, cb: Callback): Outcome {
    match cb
    case MessageBegin => Ok(p.(headers := [], name := "", value := ""))
    case FieldData(at) =>
      var p1 := if p.state.InField? then p else Flush(p);
      Ok(p1.(name := p1.name + at, state := InField))
    case ValueData(at) =>
      (match p.state
       case Nothing => Aborted
       case InField => Ok(p.(value := at, state := InValue))
       case InValue => Ok(p.(value := p.value + at, state := InValue)))
    case HeadersComplete => Ok(Flush(p))
    case MessageComplete => Ok(p.(headers := [], messages := p.messages + [p.headers]))
  }

  function Run(p: Parser, cbs: seq<Callback>): Outcome
    decreases |cbs|
  {
    if cbs == [] then Ok(p) else
    match Step(p, cbs[0])
    case Aborted => Aborted
    case Ok(next) => Run(next, cbs[1..])
  }

  lemma {:induction false} RunConcat(p: Parser, a: seq<Callback>, b: seq<Callback>)
    requires Run(p, a).Ok?
    ensures Run(p, a + b) == Run(Run(p, a).p, b)
    decreases |a|
  {
    if a == [] {
      assert a + b == b;
    } else {
      assert (a + b)[1..] == a[1..] + b;
      RunConcat(Step(p, a[0]).p, a[1..], b);
    }
  }

  /** The first name or value callback is one for a value. */
  predicate ValueFirst(cbs: seq<Callback>) {
    cbs != [] && match cbs[0]
                 case FieldData(_) => false
                 case ValueData(_) => true
                 case _ => ValueFirst(cbs[1..])
  }

  /** For any callbacks at all: an assertion fires exactly when the parser has never had a name or value
      callback and the first one is for a value; the state survives from message to message. */
  lemma {:induction false} AbortsExactlyWhen(p: Parser, cbs: seq<Callback>)
    ensures Run(p, cbs).Aborted? <==> p.state.Nothing? && ValueFirst(cbs)
    decreases |cbs|
  {
    hide NewPair;
    if cbs != [] && Step(p, cbs[0]).Ok? {
      AbortsExactlyWhen(Step(p, cbs[0]).p, cbs[1..]);
    }
  }

  // ----- a header in pieces

  /** The pieces in which one header arrives: at least one for its name. */
  datatype Pieces = Pieces(fields: seq<string>, values: seq<string>)

  function FieldCalls(pieces: seq<string>): seq<Callback> {
    if pieces == [] then [] else [FieldData(pieces[0])] + FieldCalls(pieces[1..])
  }

  function ValueCalls(pieces: seq<string>): seq<Callback> {
    if pieces == [] then [] else [ValueData(pieces[0])] + ValueCalls(pieces[1..])
  }

  function Calls(hs: seq<Pieces>): seq<Callback> {
    if hs == [] then [] else FieldCalls(hs[0].fields) + ValueCalls(hs[0].values) + Calls(hs[1..])
  }

  /** What the pieces stand for: the name in capitals, and the value as it is. */
  function Expected(hs: seq<Pieces>): seq<Header> {
    seq(|hs|, i requires 0 <= i < |hs| => Header(Capitals(Flat(hs[i].fields)), Flat(hs[i].values)))
  }

  lemma PairIs(name: string, value: string)
    ensures NewPair(name, value) == Header(Capitals(name), value)
  {
    UpperIsCapitals(name);
  }

  predicate Named(hs: seq<Pieces>) { forall i :: 0 <= i < |hs| ==> hs[i].fields != [] }

  lemma RunHead(p: Parser, cb: Callback, rest: seq<Callback>)
    requires Step(p, cb).Ok?
    ensures Run(p, [cb] + rest) == Run(Step(p, cb).p, rest)
  {
    hide Step;
    assert ([cb] + rest)[1..] == rest;
  }

  lemma {:induction false} MoreFields(p: Parser, pieces: seq<string>)
    requires p.state.InField?
    ensures Run(p, FieldCalls(pieces)) == Ok(p.(name := p.name + Flat(pieces)))
    decreases |pieces|
  {
    if pieces == [] {
      assert p.name + "" == p.name;
    } else {
      hide Run;
      var next := p.(name := p.name + pieces[0]);
      RunHead(p, FieldData(pieces[0]), FieldCalls(pieces[1..]));
      MoreFields(next, pieces[1..]);
      assert next.name + Flat(pieces[1..]) == p.name + (pieces[0] + Flat(pieces[1..]));
    }
  }

  lemma {:induction false} MoreValues(p: Parser, pieces: seq<string>)
    requires p.state.InValue?
    ensures Run(p, ValueCalls(pieces)) == Ok(p.(value := p.value + Flat(pieces)))
    decreases |pieces|
  {
    if pieces == [] {
      assert p.value + "" == p.value;
    } else {
      hide Run;
      var next := p.(value := p.value + pieces[0]);
      RunHead(p, ValueData(pieces[0]), ValueCalls(pieces[1..]));
      MoreValues(next, pieces[1..]);
      assert next.value + Flat(pieces[1..]) == p.value + (pieces[0] + Flat(pieces[1..]));
    }
  }

  /** What one header does to the parser, however it is cut. */
  function Absorb(p: Parser, h: Pieces): Parser {
    var p1 := if p.state.InField? then p else Flush(p);
    var p2 := p1.(name := p1.name + Flat(h.fields), state := InField);
    if h.values == [] then p2 else p2.(value := Flat(h.values), state := InValue)
  }

  lemma HeaderRun(p: Parser, h: Pieces)
    requires h.fields != []
    ensures Run(p, FieldCalls(h.fields) + ValueCalls(h.values)) == Ok(Absorb(p, h))
  {
    hide Run;
    var p1 := if p.state.InField? then p else Flush(p);
    var first, rest := h.fields[0], h.fields[1..];
    RunHead(p, FieldData(first), FieldCalls(rest));
    MoreFields(p1.(name := p1.name + first, state := InField), rest);
    assert p1.name + first + Flat(rest) == p1.name + (first + Flat(rest));
    RunConcat(p, FieldCalls(h.fields), ValueCalls(h.values));
    var p2 := p1.(name := p1.name + Flat(h.fields), state := InField);
    if h.values != [] {
      RunHead(p2, ValueData(h.values[0]), ValueCalls(h.values[1..]));
      MoreValues(p2.(value := h.values[0], state := InValue), h.values[1..]);
    } else {
      NoCalls(p2);
    }
  }

  lemma NoCalls(p: Parser)
    ensures Run(p, []) == Ok(p)
  {
  }

  function AbsorbAll(p: Parser, hs: seq<Pieces>): Parser
    decreases |hs|
  {
    if hs == [] then p else AbsorbAll(Absorb(p, hs[0]), hs[1..])
  }

  /** The callbacks of any header list never trip an assertion, and how each name and value is cut
      does not matter. */
  lemma {:induction false} CallsRun(p: Parser, hs: seq<Pieces>)
    requires Named(hs)
    ensures Run(p, Calls(hs)) == Ok(AbsorbAll(p, hs))
    decreases |hs|
  {
    hide Absorb;
    if hs != [] {
      var first := FieldCalls(hs[0].fields) + ValueCalls(hs[0].values);
      HeaderRun(p, hs[0]);
      RunConcat(p, first, Calls(hs[1..]));
      CallsRun(Absorb(p, hs[0]), hs[1..]);
    }
  }

  // ----- when the headers come out right

  /** Every name is non-empty, and every header but the last has a value callback. */
  predicate Separable(hs: seq<Pieces>) {
    && (forall i :: 0 <= i < |hs| ==> Flat(hs[i].fields) != "")
    && (forall i :: 0 <= i < |hs| - 1 ==> hs[i].values != [])
  }

  /** Nothing is left over in the name buffer that a further header would be glued to. */
  predicate Clear(p: Parser) { p.state.InField? ==> p.name == "" }

  lemma AbsorbOne(p: Parser, h: Pieces)
    requires Clear(p) && Flat(h.fields) != "" && (p.name == "" ==> p.value == "")
    ensures var p1 := Absorb(p, h);
            && p1.name == Flat(h.fields) && p1.messages == p.messages
            && Flush(p1).headers == Flush(p).headers + [NewPair(Flat(h.fields), Flat(h.values))]
            && (h.values != [] ==> Clear(p1))
  {
    hide Flat, NewPair;
    NoPieces();
    assert "" + Flat(h.fields) == Flat(h.fields);
  }

  lemma NoPieces()
    ensures Flat([]) == ""
  {
  }

  lemma ExpectedSplits(hs: seq<Pieces>)
    requires hs != []
    ensures Expected(hs) == [NewPair(Flat(hs[0].fields), Flat(hs[0].values))] + Expected(hs[1..])
  {
    PairIs(Flat(hs[0].fields), Flat(hs[0].values));
    hide Flat, NewPair, Capitals;
  }

  lemma {:induction false} SeparableHeaders(p: Parser, hs: seq<Pieces>)
    requires Separable(hs) && (hs != [] ==> Clear(p)) && (p.name == "" ==> p.value == "")
    ensures Flush(AbsorbAll(p, hs)).headers == Flush(p).headers + Expected(hs)
    ensures Flush(AbsorbAll(p, hs)).messages == p.messages
    decreases |hs|
  {
    hide Absorb, Flat, NewPair;
    if hs == [] {
      assert Flush(p).headers + [] == Flush(p).headers;
    } else {
      AbsorbOne(p, hs[0]);
      ExpectedSplits(hs);
      hide Expected;
      SeparableHeaders(Absorb(p, hs[0]), hs[1..]);
      var pair := NewPair(Flat(hs[0].fields), Flat(hs[0].values));
      assert Flush(p).headers + [pair] + Expected(hs[1..]) == Flush(p).headers + ([pair] + Expected(hs[1..]));
    }
  }

  // ----- and when they do not

  /** Headers in the message, counting the one in the buffers. */
  function Count(p: Parser): int { |p.headers| + if p.name != "" then 1 else 0 }

  /** A header is gained unless its name is empty or is glued to the name before it. */
  lemma AbsorbCounts(p: Parser, h: Pieces)
    ensures Count(Absorb(p, h)) <= Count(p) + 1
    ensures Count(Absorb(p, h)) == Count(p) + 1 <==> Flat(h.fields) != "" && Clear(p)
    ensures Clear(Absorb(p, h)) <==> h.values != [] || Absorb(p, h).name == ""
  {
    hide Flat, NewPair;
  }

  lemma {:induction false} AbsorbAllCounts(p: Parser, hs: seq<Pieces>)
    ensures Count(AbsorbAll(p, hs)) <= Count(p) + |hs|
    ensures Count(AbsorbAll(p, hs)) == Count(p) + |hs| && hs != [] ==> Clear(p) && Separable(hs)
    decreases |hs|
  {
    hide Absorb, Flat, NewPair, Clear;
    if hs != [] {
      var p1 := Absorb(p, hs[0]);
      AbsorbCounts(p, hs[0]);
      AbsorbAllCounts(p1, hs[1..]);
      if Count(AbsorbAll(p, hs)) == Count(p) + |hs| {
        NamedAfter(p, hs[0]);
        forall i | 0 <= i < |hs| ensures Flat(hs[i].fields) != "" {
          assert i > 0 ==> hs[i] == hs[1..][i - 1];
        }
        forall i | 0 <= i < |hs| - 1 ensures hs[i].values != [] {
          assert i > 0 ==> hs[i] == hs[1..][i - 1];
        }
      }
    }
  }

  lemma NamedAfter(p: Parser, h: Pieces)
    requires Flat(h.fields) != ""
    ensures Absorb(p, h).name != ""
  {
    hide Flat, NewPair;
  }

  /** A whole message: begin, the headers in their pieces, and the end of the headers. */
  function HeaderSection(hs: seq<Pieces>): seq<Callback> {
    [MessageBegin] + Calls(hs) + [HeadersComplete]
  }

  lemma SectionRun(p: Parser, hs: seq<Pieces>)
    requires Named(hs)
    ensures Run(p, HeaderSection(hs)) == Ok(Flush(AbsorbAll(p.(headers := [], name := "", value := ""), hs)))
  {
    hide Run, Calls, AbsorbAll, Flush;
    var p1 := p.(headers := [], name := "", value := "");
    CallsRun(p1, hs);
    RunConcat(p1, Calls(hs), [HeadersComplete]);
    RunHead(p, MessageBegin, Calls(hs) + [HeadersComplete]);
    assert HeaderSection(hs) == [MessageBegin] + (Calls(hs) + [HeadersComplete]);
    var p2 := AbsorbAll(p1, hs);
    RunHead(p2, HeadersComplete, []);
    assert [HeadersComplete] + [] == [HeadersComplete];
    NoCalls(Flush(p2));
  }

  /** From any state a message can find the parser in, in particular after earlier messages, and
      for any cutting of names and values: the message gets exactly the (upper-case name, value)
      pairs in order if and only if every name is non-empty and every header but the last has a
      value callback. */
  lemma ReassemblesExactlyWhen(p: Parser, hs: seq<Pieces>)
    requires Named(hs)
    ensures var r := Run(p, HeaderSection(hs));
            && r.Ok? && r.p.name == "" && r.p.messages == p.messages
            && (r.p.headers == Expected(hs) <==> Separable(hs))
            && (Separable(hs) ==> r.p.value == "")
            && |r.p.headers| <= |hs| && (|r.p.headers| == |hs| ==> Separable(hs))
  {
    hide Run, HeaderSection, Calls, Absorb, Flat, NewPair, Expected;
    SectionRun(p, hs);
    var p1 := p.(headers := [], name := "", value := "");
    AbsorbAllCounts(p1, hs);
    MessagesKept(p1, hs);
    ExpectedCount(hs);
    if Separable(hs) {
      SeparableHeaders(p1, hs);
      assert [] + Expected(hs) == Expected(hs);
      if hs != [] {
        LastIsBuffered(p1, hs);
      }
    }
  }

  lemma ExpectedCount(hs: seq<Pieces>)
    ensures |Expected(hs)| == |hs|
  {
  }

  lemma {:induction false} MessagesKept(p: Parser, hs: seq<Pieces>)
    ensures AbsorbAll(p, hs).messages == p.messages
    decreases |hs|
  {
    hide Flat, NewPair;
    if hs != [] {
      MessagesKept(Absorb(p, hs[0]), hs[1..]);
    }
  }

  /** The shortest header list that comes out wrong: the first header has no value callback, so the
      second name is glued to it. */
  lemma GluedNames()
    ensures var r := Run(Start, HeaderSection([Pieces(["A"], []), Pieces(["b"], ["x"])]));
            r.Ok? && r.p.headers == [Header("AB", "x")]
  {
    var a, b := Pieces(["A"], []), Pieces(["b"], ["x"]);
    SectionRun(Start, [a, b]);
    hide Run, HeaderSection;
    assert [a, b][1..] == [b] && [b][1..] == [];
    OnePiece("A");
    OnePiece("b");
    OnePiece("x");
    var p1 := Absorb(Start, a);
    assert p1 == Parser(InField, "A", "", [], []) by { assert "" + "A" == "A"; }
    var p2 := Absorb(p1, b);
    assert p2 == Parser(InValue, "Ab", "x", [], []) by { assert "A" + "b" == "Ab"; }
    assert AbsorbAll(p1, [b]) == AbsorbAll(p2, []) == p2;
    assert AbsorbAll(Start, [a, b]) == AbsorbAll(p1, [b]);
    assert Upper("Ab") == "AB";
  }

  lemma OnePiece(text: string)
    ensures Flat([text]) == text
  {
    assert [text][1..] == [];
  }

  // ----- trailers: header callbacks between the end of the headers and the end of the message

  datatype Message = Message(headers: seq<Pieces>, trailers: seq<Pieces>)

  function MessageCalls(m: Message): seq<Callback> {
    HeaderSection(m.headers) + Calls(m.trailers) + [MessageComplete]
  }

  function ButLast(hs: seq<Pieces>): seq<Pieces> { if hs == [] then [] else hs[..|hs| - 1] }

  /** message_complete_cb does not look at the buffers, so the last trailer never reaches the message. */
  function Received(m: Message): seq<Header> { Expected(m.headers) + Expected(ButLast(m.trailers)) }

  lemma MessageRun(p: Parser, m: Message)
    requires Named(m.headers) && Named(m.trailers)
    ensures Run(p, HeaderSection(m.headers)).Ok?
    ensures var p2 := AbsorbAll(Run(p, HeaderSection(m.headers)).p, m.trailers);
            Run(p, MessageCalls(m)) == Ok(p2.(headers := [], messages := p2.messages + [p2.headers]))
  {
    hide Run, HeaderSection, Calls, AbsorbAll;
    ReassemblesExactlyWhen(p, m.headers);
    var p1 := Run(p, HeaderSection(m.headers)).p;
    var p2 := AbsorbAll(p1, m.trailers);
    CallsRun(p1, m.trailers);
    RunConcat(p1, Calls(m.trailers), [MessageComplete]);
    RunConcat(p, HeaderSection(m.headers), Calls(m.trailers) + [MessageComplete]);
    assert MessageCalls(m) == HeaderSection(m.headers) + (Calls(m.trailers) + [MessageComplete]);
    RunHead(p2, MessageComplete, []);
    assert [MessageComplete] + [] == [MessageComplete];
    NoCalls(p2.(headers := [], messages := p2.messages + [p2.headers]));
  }

  /** Trailers that could be told apart arrive behind the headers, all but the last. */
  lemma TrailersRun(p: Parser, ts: seq<Pieces>)
    requires Separable(ts) && p.name == "" && p.value == ""
    ensures AbsorbAll(p, ts).headers == p.headers + Expected(ButLast(ts))
  {
    hide Absorb, Flat, NewPair;
    if ts == [] {
      assert p.headers + [] == p.headers;
    } else {
      hide AbsorbAll;
      SeparableHeaders(p, ts);
      LastIsBuffered(p, ts);
      var end := AbsorbAll(p, ts);
      assert Flush(end).headers[..|Flush(end).headers| - 1] == end.headers;
      assert Expected(ts)[..|ts| - 1] == Expected(ButLast(ts));
      assert (p.headers + Expected(ts))[..|p.headers| + |ts| - 1] == p.headers + Expected(ts)[..|ts| - 1];
    }
  }

  lemma {:induction false} LastIsBuffered(p: Parser, hs: seq<Pieces>)
    requires hs != [] && Flat(hs[|hs| - 1].fields) != ""
    ensures AbsorbAll(p, hs).name != ""
    decreases |hs|
  {
    hide Absorb, Flat;
    if |hs| > 1 {
      LastIsBuffered(Absorb(p, hs[0]), hs[1..]);
    } else {
      NamedAfter(p, hs[0]);
      assert hs[1..] == [];
    }
  }

  /** For any headers and trailers and from any state: the message gets all of both if and only if
      the headers can be told apart and there are no trailers. */
  lemma MessageExactlyWhen(p: Parser, m: Message)
    requires Named(m.headers) && Named(m.trailers)
    ensures var r := Run(p, MessageCalls(m));
            && r.Ok? && |r.p.messages| == |p.messages| + 1 && r.p.messages[..|p.messages|] == p.messages
            && (r.p.messages[|p.messages|] == Expected(m.headers) + Expected(m.trailers)
                <==> Separable(m.headers) && m.trailers == [])
            && (Separable(m.headers) && Separable(m.trailers) ==> r.p.messages == p.messages + [Received(m)])
  {
    hide Run, MessageCalls, HeaderSection, Absorb, Flat, NewPair, Expected, Named;
    MessageRun(p, m);
    ReassemblesExactlyWhen(p, m.headers);
    var p1 := Run(p, HeaderSection(m.headers)).p;
    MessagesKept(p1, m.trailers);
    ExpectedCount(m.headers);
    ExpectedCount(m.trailers);
    if m.trailers == [] {
      assert Expected(m.headers) + Expected([]) == Expected(m.headers);
    } else {
      TrailerCount(p1, m.trailers);
    }
    if Separable(m.headers) && Separable(m.trailers) {
      TrailersRun(p1, m.trailers);
    }
  }

  lemma TrailerCount(p: Parser, ts: seq<Pieces>)
    requires ts != [] && p.name == ""
    ensures |AbsorbAll(p, ts).headers| < |p.headers| + |ts|
  {
    hide Absorb, Flat, AbsorbAll;
    AbsorbAllCounts(p, ts);
    if Count(AbsorbAll(p, ts)) == Count(p) + |ts| {
      LastIsBuffered(p, ts);
    }
  }

  /** One header and one trailer: the message has the header only. */
  lemma LostTrailer()
    ensures var r := Run(Start, MessageCalls(Message([Pieces(["A"], ["x"])], [Pieces(["B"], ["y"])])));
            r.Ok? && r.p.messages == [[Header("A", "x")]]
  {
    var a, b := Pieces(["A"], ["x"]), Pieces(["B"], ["y"]);
    OnePiece("A");
    OnePiece("x");
    OnePiece("B");
    var m := Message([a], [b]);
    MessageExactlyWhen(Start, m);
    hide Run, MessageCalls, Flat;
    assert Separable([a]) && Separable([b]);
    assert Upper("A") == "A";
    assert Expected([a])[0] == Header("A", "x");
    assert Received(m) == [Header("A", "x")];
    assert Start.messages + [Received(m)] == [[Header("A", "x")]];
  }

  // ----- several messages on one parser

  function Session(msgs: seq<Message>): seq<Callback> {
    if msgs == [] then [] else MessageCalls(msgs[0]) + Session(msgs[1..])
  }

  function ReceivedAll(msgs: seq<Message>): seq<seq<Header>> {
    if msgs == [] then [] else [Received(msgs[0])] + ReceivedAll(msgs[1..])
  }

  /** Any number of messages in a row come out one by one, each with its own headers and all but the
      last of its own trailers; what a lost trailer left in the buffers reaches no later message. */
  lemma {:induction false} EverySession(p: Parser, msgs: seq<Message>)
    requires forall m <- msgs :: Named(m.headers) && Separable(m.headers) && Named(m.trailers) && Separable(m.trailers)
    ensures Run(p, Session(msgs)).Ok?
    ensures Run(p, Session(msgs)).p.messages == p.messages + ReceivedAll(msgs)
    decreases |msgs|
  {
    hide Run, MessageCalls, Received, Expected, Named, Separable;
    if msgs == [] {
      NoCalls(p);
      assert p.messages + [] == p.messages;
    } else {
      assert msgs[0] in msgs;
      MessageExactlyWhen(p, msgs[0]);
      RunConcat(p, MessageCalls(msgs[0]), Session(msgs[1..]));
      EverySession(Run(p, MessageCalls(msgs[0])).p, msgs[1..]);
      assert p.messages + [Received(msgs[0])] + ReceivedAll(msgs[1..]) == p.messages + ReceivedAll(msgs);
    }
  }

  // ----- the parser as an object

  class HttpMessageParser {
    var state: HeaderState
    var name: string
    var value: string
    var headers: seq<Header>
    var messages: seq<seq<Header>>

    ghost function Value(): Parser
      reads this
    {
      Parser(state, name, value, headers, messages)
    }

    constructor ()
      ensures Value() == Start
    {
      state, name, value, headers, messages := Nothing, "", "", [], [];
    }

    /** message_begin_cb; the header state is left as the last message left it. */
    method OnMessageBegin()
      modifies this
      ensures Step(old(Value()), MessageBegin) == Ok(Value())
    {
      headers := [];
      name, value := "", "";
    }

    /** http_message_add_header_cbuf for the buffers, which are then cleared. */
    method AddBuffered()
      modifies this
      ensures Value() == Flush(old(Value()))
    {
      if |name| != 0 {
        headers := headers + [NewPair(name, value)];
        name, value := "", "";
      }
    }

    /** header_field_data_cb. */
    method OnHeaderField(at: string)
      modifies this
      ensures Step(old(Value()), FieldData(at)) == Ok(Value())
    {
      if state.Nothing? || state.InValue? {
        AddBuffered();
        name := name + at;
      } else {
        name := name + at;
      }
      state := InField;
    }

    /** header_value_data_cb; its assertion fails when `!ok`. */
    method OnHeaderValue(at: string) returns (ok: bool)
      modifies this
      ensures Step(old(Value()), ValueData(at)) == if ok then Ok(Value()) else Aborted
    {
      match state {
        case InField =>
          value := "";
          value := value + at;
        case InValue => value := value + at;
        case Nothing => return false;
      }
      state := InValue;
      return true;
    }

    /** headers_complete_cb, as far as headers go. */
    method OnHeadersComplete()
      modifies this
      ensures Step(old(Value()), HeadersComplete) == Ok(Value())
    {
      AddBuffered();
    }

    /** message_complete_cb. */
    method OnMessageComplete()
      modifies this
      ensures Step(old(Value()), MessageComplete) == Ok(Value())
    {
      messages := messages + [headers];
      headers := [];
    }
  }

  // ----- lookup

  /** KVPair_new's copy loop and make_upper: an upper-case copy with its NUL. */
  method UpperCopy(src: string) returns (dest: array<char>)
    ensures dest.Length == |src| + 1 && dest[..|src|] == Capitals(src) && dest[|src|] == '\0'
  {
    UpperIsCapitals(src);
    dest := new char[|src| + 1];
    var i := 0;
    while i < |src|
      invariant 0 <= i <= |src|
      invariant forall j :: 0 <= j < i ==> dest[j] == UpperChar(src[j])
    {
      dest[i] := UpperChar(src[i]);
      i := i + 1;
    }
    dest[|src|] := '\0';
  }

  /** strcmp sees a label up to its first NUL. */
  predicate Matches(h: Header, key: string) { CString(h.key) == Capitals(key) }

  /** HdrList_find: the first header whose label is the key in any letter case. */
  method Find(headers: seq<Header>, key: string) returns (k: nat)
    requires '\0' !in key
    ensures k <= |headers| && (k < |headers| ==> Matches(headers[k], key))
    ensures forall i :: 0 <= i < k ==> !Matches(headers[i], key)
  {
    var fixedKey := UpperCopy(key);
    var text := fixedKey[..|key|];
    k := 0;
    while k < |headers|
      invariant 0 <= k <= |headers|
      invariant forall i :: 0 <= i < k ==> !Matches(headers[i], key)
    {
      if CString(headers[k].key) == text {
        return;
      }
      k := k + 1;
    }
  }

  /** Equal but for letter case. */
  predicate SameName(a: string, b: string) {
    |a| == |b| && forall i :: 0 <= i < |a| ==> CapitalOf(a[i]) == CapitalOf(b[i])
  }

  lemma CapitalsMatch(a: string, b: string)
    ensures SameName(a, b) <==> Capitals(a) == Capitals(b)
  {
    hide CapitalOf;
    if Capitals(a) == Capitals(b) {
      assert forall i :: 0 <= i < |a| ==> CapitalOf(a[i]) == Capitals(a)[i];
      assert forall i :: 0 <= i < |b| ==> CapitalOf(b[i]) == Capitals(b)[i];
    }
  }

  lemma NoNulInUpper(name: string)
    requires '\0' !in name
    ensures '\0' !in Upper(name)
  {
    forall i | 0 <= i < |name| ensures Upper(name)[i] != '\0' {
      assert name[i] in name;
    }
  }

  /** Looking up a reassembled header by any spelling of its name finds it: a header matches
      exactly the keys that are its name but for letter case. */
  lemma LookupIgnoresCase(h: Pieces, key: string)
    requires '\0' !in Flat(h.fields)
    ensures Matches(Header(Capitals(Flat(h.fields)), Flat(h.values)), key) <==> SameName(Flat(h.fields), key)
  {
    hide Upper, Capitals, SameName, CString;
    var name := Flat(h.fields);
    UpperIsCapitals(name);
    CapitalsMatch(name, key);
    NoNulInUpper(name);
    CStringIsWhole(Upper(name));
  }
}
