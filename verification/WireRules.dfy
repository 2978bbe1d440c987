/**
 The rules of the wire told in numbers: which octets a session refuses and with which code, what it makes of
 every whole message, and what a Close is answered with. Nothing here relies on how headers are written or
 bits are picked elsewhere.
 */
module WireRules {
  import opened Octets
  import opened Masking
  import opened Framing
  import opened Closing
  import opened Reference
  import opened ChunkIndependence
  import opened RoundTrip
  import Utf8

  /** What a session says when it fails. */
  function Refusal(code: nat): seq<Event> {
    [SendClose(code, []), Closed(1006, [])]
  }

  /** More octets than the session or an `unsigned int` allows. */
  predicate Over(cfg: Config, n: nat) {
    n > 0xFFFF_FFFF || (cfg.maxPayload != 0 && n > cfg.maxPayload)
  }

  // ----- headers

  /** Octets before the key; the second octet tells. */
  function BeforeKey(b1: byte): nat {
    if b1 % 0x80 < 126 then 2 else if b1 % 0x80 == 126 then 4 else 10
  }

  function Announced(b: bytes): nat
    requires |b| >= 2 && |b| >= BeforeKey(b[1])
  {
    if b[1] % 0x80 < 126 then b[1] % 0x80 else Number(b[2..BeforeKey(b[1])])
  }

  /** What sections 5.2, 5.4 and 5.5 of RFC 6455 and section 6 of RFC 7692 forbid, in a session in state `s`. */
  predicate Violates(cfg: Config, s: State, b0: byte, b1: byte, n: nat) {
    var op := b0 % 0x10;
    || b1 < 0x80                                                          // not masked
    || b0 / 0x10 % 4 != 0                                                 // RSV2, RSV3
    || op in {3, 4, 5, 6, 7, 11, 12, 13, 14, 15}                          // reserved opcodes
    || (op in {8, 9, 10} && (b0 < 0x80 || b1 % 0x80 > 125))               // control frames are whole and short
    || (b0 / 0x40 % 2 == 1 && !(op in {1, 2} && cfg.deflate && !s.compressed))  // RSV1
    || (b1 % 0x80 == 126 && n < 126) || (b1 % 0x80 == 127 && (n < 0x1_0000 || n >= 0x8000_0000_0000_0000))
    || (op in {1, 2} && s.open) || (op == 0 && !s.open)                   // continuations continue
  }

  lemma FirstBits(b0: byte)
    ensures IsFin(b0) <==> b0 >= 0x80
    ensures Rsv1(b0) <==> b0 / 0x40 % 2 == 1
    ensures Rsv23(b0) <==> b0 / 0x10 % 4 != 0
    ensures IsMasked(b0) <==> b0 >= 0x80
    ensures PayloadLength(b0) == b0 % 0x80 && GetOpCode(b0) == b0 % 0x10
  {
  }

  lemma HeaderInNumbers(b: bytes)
    ensures ParseHeader(b).Some? <==> |b| >= 2 && |b| >= BeforeKey(b[1]) + 4
    ensures ParseHeader(b).Some? ==>
              var h := ParseHeader(b).value;
              && h.length == Announced(b) && h.Size() == BeforeKey(b[1]) + 4 && h.op == b[0] % 0x10
              && (h.fin <==> b[0] >= 0x80) && (h.rsv1 <==> b[0] / 0x40 % 2 == 1) && (h.rsv23 <==> b[0] / 0x10 % 4 != 0)
              && (h.masked <==> b[1] >= 0x80)
              && (h.form == Medium ==> h.length < 0x1_0000)
              && h.form == (if b[1] % 0x80 < 126 then Short else if b[1] % 0x80 == 126 then Medium else Long)
  {
    if ParseHeader(b).Some? {
      FirstBits(b[0]);
      FirstBits(b[1]);
      if b[1] % 0x80 >= 126 {
        FromBigEndianNumber(b[2..BeforeKey(b[1])]);
      }
    }
  }

  /** A header is refused with 1002 exactly for what is forbidden, with 1009 exactly for a length over the limit. */
  lemma HeaderIsRefused(cfg: Config, s: State, b: bytes)
    requires ParseHeader(b).Some?
    ensures |b| >= 2 && |b| >= BeforeKey(b[1])
    ensures HeaderError(cfg, s, ParseHeader(b).value) ==
            if Violates(cfg, s, b[0], b[1], Announced(b)) then Some(1002)
            else if b[0] % 0x10 <= 2 && (Over(cfg, Announced(b)) || (!s.closeSent && Over(cfg, |s.data| + Announced(b)))) then Some(1009)
            else None
  {
    hide ParseHeader, IsFin, Rsv1, Rsv23, IsMasked, GetOpCode, PayloadLength, Number;
    HeaderInNumbers(b);
  }

  /** A refused header ends the session there and then, whatever follows it. */
  lemma RefusalIsFinal(cfg: Config, s: State, b: bytes)
    requires !s.closing && ParseHeader(b).Some? && HeaderError(cfg, s, ParseHeader(b).value).Some?
    ensures var r, code := Drain(cfg, s, b), HeaderError(cfg, s, ParseHeader(b).value).value;
            && r.stream.state.closing && r.stream.pending == []
            && r.events == if s.closeSent then [Closed(1006, [])] else Refusal(code)
  {
    var o := Failed(s, HeaderError(cfg, s, ParseHeader(b).value).value);
    assert o.events + [] == o.events;
    assert [] + [Closed(1006, [])] == [Closed(1006, [])];
  }

  // ----- closing

  predicate MayTravel(code: nat) {
    code in {1000, 1001, 1002, 1003, 1007, 1008, 1009, 1010, 1011, 1012, 1013, 1014} || 3000 <= code <= 4999
  }

  /** A Close body is good when it is empty, or a code that may travel and text (section 7.4 of RFC 6455). */
  lemma CloseBodyIsGood(p: bytes)
    ensures var c := ParseClosePayload(p);
            if |p| == 0 then c == Close(1005, [])
            else if |p| >= 2 && MayTravel(Number(p[..2])) && Utf8.Text(p[2..]) then c == Close(Number(p[..2]), p[2..])
            else c == Close(1006, [])
  {
    if |p| >= 2 {
      FromBigEndianNumber(p[..2]);
    }
  }

  /** What a Close frame of the server carries: no code that must not travel, a reason of 123 octets at most, and only text. */
  function CloseCarries(code: nat, reason: bytes): bytes
    requires code < 0x1_0000
  {
    var short := if |reason| <= 123 then reason else reason[..123];
    if code in {0, 1005, 1006} then [] else [code / 0x100, code % 0x100] + (if Utf8.Text(short) then short else [])
  }

  lemma CloseOnTheWire(code: nat, reason: bytes)
    requires code < 0x1_0000
    ensures ReadServerFrame(WireFrame(SendClose(code, reason))) == Some(Received(true, false, 8, CloseCarries(code, reason)))
  {
    hide ReadServerFrame, ServerFrame, Utf8.Text;
    BigEndianPair(code);
    ServerFrameIsRead(CLOSE, CloseBody(code, CutReason(reason)), false);
  }

  lemma PongOnTheWire(payload: bytes)
    requires |payload| < 126
    ensures ReadServerFrame(WireFrame(SendPong(payload))) == Some(Received(true, false, 10, payload))
  {
    hide ReadServerFrame, ServerFrame;
    ServerFrameIsRead(PONG, payload, false);
  }

  predicate ControlFrame(f: ClientFrame, op: nat) {
    f.op == op && f.fin && !f.rsv1 && |f.payload| < 126
  }

  lemma EncodedControl(cfg: Config, s: State, f: ClientFrame, y: bytes)
    requires !s.closing && f.Valid() && (ControlFrame(f, CLOSE) || ControlFrame(f, PING) || ControlFrame(f, PONG))
    ensures var o := DeliverControl(s, f.op, f.payload);
            Drain(cfg, s, Encode(f) + y) == Then(o, Drain(cfg, o.state, y))
  {
    hide DeliverControl;
    assert [f][1..] == [] && EncodeAll([f]) == Encode(f) + [] == Encode(f);
    assert EncodeAll([]) + y == y;
    DrainEncoded(cfg, s, [f], y);
  }

  /**
   A peer's Close with a good body is answered in kind, its very octets sent back, and reported with its own
   code and reason; nothing after it is heard.
   */
  lemma CloseIsAnsweredInKind(cfg: Config, s: State, close: ClientFrame, y: bytes)
    requires !s.closing && !s.closeSent && close.Valid() && ControlFrame(close, 8)
    requires ParseClosePayload(close.payload).code != 1006
    ensures var c, r := ParseClosePayload(close.payload), Drain(cfg, s, Encode(close) + y);
            && r.events == [SendClose(c.code, c.reason), Closed(c.code, c.reason)] && r.stream.state.closing
            && ReadServerFrame(WireFrame(r.events[0])) == Some(Received(true, false, 8, close.payload))
  {
    hide ReadServerFrame, ServerFrame, ParseClosePayload;
    var c := ParseClosePayload(close.payload);
    EncodedControl(cfg, s, close, y);
    assert [SendClose(c.code, c.reason)] + [Closed(c.code, c.reason)] + [] == [SendClose(c.code, c.reason), Closed(c.code, c.reason)];
    ReasonIsShort(close.payload);
    FormatInvertsParse(close.payload);
    ServerFrameIsRead(CLOSE, close.payload, false);
  }

  lemma ReasonIsShort(p: bytes)
    requires |p| < 126
    ensures CutReason(ParseClosePayload(p).reason) == ParseClosePayload(p).reason
  {
  }

  /** A Close with a bad body is a violation of the protocol. */
  lemma BadCloseIsRefused(cfg: Config, s: State, close: ClientFrame, y: bytes)
    requires !s.closing && !s.closeSent && close.Valid() && ControlFrame(close, 8)
    requires ParseClosePayload(close.payload).code == 1006
    ensures var r := Drain(cfg, s, Encode(close) + y); r.events == Refusal(1002) && r.stream.state.closing
  {
    hide ParseClosePayload;
    EncodedControl(cfg, s, close, y);
    assert Failed(s, 1002).events + [] == Refusal(1002);
  }

  /** A Ping is answered with its own octets, at any time before the peer's Close, and changes nothing else; a Pong only that. */
  lemma PingIsAnswered(cfg: Config, s: State, f: ClientFrame, y: bytes)
    requires !s.closing && f.Valid() && (ControlFrame(f, 9) || ControlFrame(f, 10))
    ensures var r, q := Drain(cfg, s, Encode(f) + y), Drain(cfg, s, y);
            && r.stream == q.stream
            && (f.op == 10 ==> r.events == q.events)
            && (f.op == 9 ==>
                  && r.events == [SendPong(f.payload)] + q.events
                  && ReadServerFrame(WireFrame(SendPong(f.payload))) == Some(Received(true, false, 10, f.payload)))
  {
    hide ReadServerFrame, WireFrame;
    EncodedControl(cfg, s, f, y);
    assert [] + Drain(cfg, s, y).events == Drain(cfg, s, y).events;
    PongOnTheWire(f.payload);
  }

  // ----- whole messages

  predicate WholeMessage(cfg: Config, m: ClientFrame) {
    m.Valid() && m.fin && (m.op == 1 || m.op == 2) && (m.rsv1 ==> cfg.deflate)
  }

  function OfText(op: nat, data: bytes): seq<Event> {
    if op == 1 && !Utf8.Text(data) then Refusal(1007) else [Message(op, data)]
  }

  /** What must come of one message, `before` being the compressed messages before it. */
  function Expected(cfg: Config, before: seq<bytes>, m: ClientFrame): seq<Event> {
    if Over(cfg, |m.payload|) then Refusal(1009)
    else if !m.rsv1 then OfText(m.op, m.payload)
    else
      var run := cfg.inflate(if cfg.contextTakeover then before else [], m.payload);
      var data := Concat(run.pieces);
      if cfg.maxPayload != 0 && |data| > cfg.maxPayload then Refusal(1009)
      else if run.end == Corrupt then Refusal(1007)
      else if run.end == Broken then Refusal(1011)
      else OfText(m.op, data)
  }

  /** What must come of several, up to the first that is refused. */
  function ExpectedAll(cfg: Config, before: seq<bytes>, ms: seq<ClientFrame>): seq<Event>
    decreases |ms|
  {
    if ms == [] then []
    else
      var first := Expected(cfg, before, ms[0]);
      if !first[0].Message? then first
      else first + ExpectedAll(cfg, if ms[0].rsv1 then before + [ms[0].payload] else before, ms[1..])
  }

  lemma OneMessage(cfg: Config, s: State, m: ClientFrame)
    requires Receptive(cfg, s) && !s.open && WholeMessage(cfg, m)
    ensures HeaderError(cfg, s, m.Head()) == if Over(cfg, |m.payload|) then Some(1009) else None
    ensures !Over(cfg, |m.payload|) ==>
              var o := Apply(cfg, s, Plain(m));
              && o.events == Expected(cfg, s.history, m) != []
              && if o.events[0].Message? then
                   Receptive(cfg, o.state) && !o.state.open
                   && o.state.history == if m.rsv1 then s.history + [m.payload] else s.history
                 else o.state.closing
  {
    assert [] + m.payload == m.payload;
  }

  /**
   Any messages, one frame each, compressed or not: they are delivered in order, each inflated in the context
   that was agreed on, up to the first that is too long, corrupt or not text, which ends the session.
   */
  lemma {:induction false} MessagesArrive(cfg: Config, s: State, ms: seq<ClientFrame>)
    requires Receptive(cfg, s) && !s.open && AllValid(ms) && forall i | 0 <= i < |ms| :: WholeMessage(cfg, ms[i])
    ensures Drain(cfg, s, EncodeAll(ms)).events == ExpectedAll(cfg, s.history, ms)
    decreases |ms|
  {
    hide Expected, Apply, HeaderError, Receptive, NextStep, Encode, WholeMessage;
    if ms != [] {
      var m := ms[0];
      OneMessage(cfg, s, m);
      StillOpen(cfg, s);
      assert EncodeAll(ms) + [] == EncodeAll(ms);
      if Over(cfg, |m.payload|) {
        DrainRefused(cfg, s, ms, []);
        OverIsRefused(cfg, s, m);
      } else {
        var o := Apply(cfg, s, Plain(m));
        DrainEncoded(cfg, s, ms, []);
        assert EncodeAll(ms[1..]) + [] == EncodeAll(ms[1..]);
        if o.events[0].Message? {
          MessagesArrive(cfg, o.state, ms[1..]);
        } else {
          assert Drain(cfg, o.state, EncodeAll(ms[1..])).events == [];
          assert o.events + [] == o.events;
        }
      }
    }
  }

  lemma StillOpen(cfg: Config, s: State)
    requires Receptive(cfg, s)
    ensures !s.closing
  {
  }

  lemma OverIsRefused(cfg: Config, s: State, m: ClientFrame)
    requires Receptive(cfg, s) && Over(cfg, |m.payload|)
    ensures Failed(s, 1009).events == Expected(cfg, s.history, m) == Refusal(1009)
  {
  }

  // ----- two examples

  lemma AsciiIsText(s: bytes)
    requires Utf8.Ascii(s)
    ensures Utf8.Text(s)
  {
    assert s[..|s|] == s && s[|s|..] == [];
    Utf8.AsciiPrefix(s, |s|);
  }

  /** The unmasked text message "Hello", as the server writes it. */
  lemma HelloIsWritten()
    ensures var hello := [0x48, 0x65, 0x6C, 0x6C, 0x6F]; ServerFrame(1, hello, false) == [0x81, 0x05] + hello
  {
  }

  /** A Close with code 1001 and reason "bye" goes back as it came. */
  lemma ByeIsAnswered(cfg: Config, key: Key)
    ensures var body := [0x03, 0xE9, 0x62, 0x79, 0x65];
            var r := Drain(cfg, START, Encode(ClientFrame(true, false, 8, key, body)));
            && r.events == [SendClose(1001, body[2..]), Closed(1001, body[2..])]
            && WireFrame(r.events[0]) == [0x88, 0x05] + body
  {
    hide Utf8.Text, Drain, ParseClosePayload, Encode, ReadServerFrame;
    var body: bytes := [0x03, 0xE9, 0x62, 0x79, 0x65];
    var f := ClientFrame(true, false, 8, key, body);
    AsciiIsText(body[2..]);
    CloseBodyIsGood(body);
    assert Encode(f) + [] == Encode(f);
    CloseIsAnsweredInKind(cfg, START, f, []);
    ByeOnTheWire(body);
  }

  lemma ByeOnTheWire(body: bytes)
    requires body == [0x03, 0xE9, 0x62, 0x79, 0x65] && ParseClosePayload(body) == Close(1001, body[2..])
    ensures WireFrame(SendClose(1001, body[2..])) == [0x88, 0x05] + body
  {
    hide ParseClosePayload;
    FormatInvertsParse(body);
    assert CutReason(body[2..]) == body[2..];
  }
}
