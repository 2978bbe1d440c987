/**
 The session as it runs: an incremental parser that keeps an incomplete header
 in a spill, unmasks payloads in place in the chunk it was given, and hands out
 views into that chunk. Every call is proved to do what `Reference.Drain` says.
 */
module StreamSession {
  import opened Octets
  import opened Masking
  import opened Framing
  import opened Closing
  import opened Reference
  import opened ChunkIndependence
  import Utf8

  /** Message bytes are owned by the event, or borrowed from the chunk they arrived in. */
  datatype Payload = Owned(data: bytes) | View(buffer: array<byte>, start: nat, length: nat)

  datatype SessionEvent =
    | MessageEvent(op: nat, payload: Payload)
    | FrameEvent(frame: bytes)
    | CloseEvent(code: nat, reason: bytes)

  /** `said` is what `e` conveys when `buf` holds `now`: a view is empty or lies in `buf` before `limit`. */
  ghost predicate Conveys(e: SessionEvent, said: Event, buf: array<byte>, now: bytes, limit: nat)
    requires limit <= |now|
  {
    match e
    case FrameEvent(frame) =>
      ((said.SendPong? && |said.payload| < 126) || said.SendClose?) && frame == WireFrame(said)
    case CloseEvent(code, reason) => said == Closed(code, reason)
    case MessageEvent(op, Owned(data)) => said == Message(op, data)
    case MessageEvent(op, View(buffer, start, length)) =>
      if length == 0 then start <= buffer.Length && said == Message(op, [])
      else buffer == buf && start + length <= limit && said == Message(op, now[start..start + length])
  }

  ghost predicate ConveyAllIn(es: seq<SessionEvent>, said: seq<Event>, buf: array<byte>, now: bytes, limit: nat)
    requires limit <= |now|
  {
    |es| == |said| && forall i | 0 <= i < |es| :: Conveys(es[i], said[i], buf, now, limit)
  }

  ghost predicate ConveyAll(es: seq<SessionEvent>, said: seq<Event>, buf: array<byte>, limit: nat)
    requires limit <= buf.Length
    reads buf
  {
    ConveyAllIn(es, said, buf, buf[..], limit)
  }

  lemma BeforeWrite(now: bytes, before: bytes, limit: nat, start: nat, stop: nat)
    requires start <= stop <= limit <= |now| == |before| && now[..limit] == before[..limit]
    ensures now[start..stop] == before[start..stop]
  {
    var r, s := now[start..stop], before[start..stop];
    forall k | 0 <= k < stop - start
      ensures r[k] == s[k]
    {
      assert now[..limit][start + k] == before[..limit][start + k];
    }
  }

  /** Events stay what they are while the buffer changes only from `limit` on. */
  lemma StillConvey(es: seq<SessionEvent>, said: seq<Event>, buf: array<byte>,
                    before: bytes, now: bytes, limit: nat, limit': nat)
    requires limit <= limit' <= |now| == |before| && now[..limit] == before[..limit]
    requires ConveyAllIn(es, said, buf, before, limit)
    ensures ConveyAllIn(es, said, buf, now, limit')
  {
    forall i | 0 <= i < |es|
      ensures Conveys(es[i], said[i], buf, now, limit')
    {
      assert Conveys(es[i], said[i], buf, before, limit);
      if es[i].MessageEvent? && es[i].payload.View? && es[i].payload.length > 0 {
        var start, stop := es[i].payload.start, es[i].payload.start + es[i].payload.length;
        BeforeWrite(now, before, limit, start, stop);
      }
    }
  }

  /** What a write from `written` on leaves alone. */
  lemma AfterWrite(now: bytes, before: bytes, written: nat, src: nat, length: nat)
    requires |now| == |before| && written <= src && src + length <= |now|
    requires now[written..] == before[written..]
    ensures now[src..src + length] == before[src..src + length]
  {
    var r, s := now[src..src + length], before[src..src + length];
    forall k | 0 <= k < length
      ensures r[k] == s[k]
    {
      assert now[written..][src - written + k] == before[written..][src - written + k];
    }
  }

  datatype CompressionStatus = DISABLED | ENABLED | COMPRESSED_FRAME

  function StatusOf(cfg: Config, compressed: bool): CompressionStatus {
    if !cfg.deflate then DISABLED else if compressed then COMPRESSED_FRAME else ENABLED
  }

  /** The opcode under which a data frame is delivered. */
  function EffectiveOp(s: State, h: Header): nat {
    if h.op == CONTINUATION then s.op else h.op
  }

  /** Every check on a header has passed, save the one on the length of the whole message. */
  predicate HeaderPassed(cfg: Config, s: State, h: Header) {
    !MalformedHeader(cfg, s, h) && (IsData(h.op) ==> (h.op == CONTINUATION) == s.open && !TooLong(cfg, h.length))
  }

  /** The state once the header of a data frame was read. */
  function DataState(s: State, h: Header): State {
    s.(open := !h.fin, op := EffectiveOp(s, h), compressed := s.compressed || h.rsv1)
  }

  lemma DataStep(cfg: Config, s: State, h: Header, whole: bytes)
    requires HeaderPassed(cfg, s, h) && IsData(h.op) && Sound(cfg, s)
    ensures HeaderError(cfg, s, h) == if MessageTooLong(cfg, s, h) then Some(1009) else None
    ensures DataState(s, h).compressed ==> cfg.deflate
    ensures EffectiveOp(s, h) == TEXT || EffectiveOp(s, h) == BINARY
    ensures |whole| == h.length && !MessageTooLong(cfg, s, h) ==>
              Apply(cfg, s, Frame(h, whole)) ==
                if s.closeSent then Outcome(DataState(s, h), [])
                else if !h.fin then Outcome(DataState(s, h).(data := s.data + whole), [])
                else MessageComplete(cfg, DataState(s, h).(data := []), s.data + whole)
  {
  }

  lemma ControlStep(cfg: Config, s: State, h: Header, whole: bytes)
    requires HeaderPassed(cfg, s, h) && IsControl(h.op)
    ensures HeaderError(cfg, s, h) == None && h.fin && h.length < 126 && !h.rsv1
    ensures |whole| == h.length ==> Apply(cfg, s, Frame(h, whole)) == DeliverControl(s, h.op, whole)
  {
  }

  lemma CompleteBuffers(cfg: Config, s: State, whole: bytes)
    ensures !MessageComplete(cfg, s, whole).state.closing ==> MessageComplete(cfg, s, whole).state.data == s.data
  {
  }

  class Session {
    const cfg: Config
    const simd: Simd
    /** Room for 13 spilled octets and a header after them. */
    const headerBuffer: array<byte>

    var wantsHead: bool
    var spill: bytes
    var opStack: int
    var lastFin: bool
    var fragmentedMessage: bool
    var opCode: seq<nat>
    var remainingBytes: nat
    var mask: Key

    var compressionStatus: CompressionStatus
    var inflated: seq<bytes>
    var fragmentBuffer: bytes
    var controlTipLength: nat
    var events: seq<SessionEvent>
    var closing: bool
    var closeSent: bool
    var failureCode: nat

    /** The same session as the reference sees it, and what `events` convey. */
    ghost var stream: Stream
    ghost var said: seq<Event>

    // ----- invariant

    ghost predicate Basics()
      reads this
    {
      && headerBuffer.Length == 27
      && |opCode| == 2
      && Sound(cfg, stream.state)
      && closing == stream.state.closing
      && closeSent == stream.state.closeSent
      && (!closing ==> failureCode == 1002)
      && (closing ==> stream.pending == [])
    }

    /** Between two frames; `compressed` is what headers have set already, the next one included. */
    ghost predicate Between(compressed: bool)
      reads this
    {
      var s := stream.state;
      && wantsHead
      && |opCode| == 2
      && fragmentedMessage == s.open
      && opStack == (if s.open then 0 else -1)
      && (s.open ==> opCode[0] == s.op)
      && compressionStatus == StatusOf(cfg, compressed)
      && inflated == s.history
      && controlTipLength == 0
      && (if closeSent then !TooLong(cfg, |fragmentBuffer|) else fragmentBuffer == s.data)
    }

    /** Inside the frame with header `h`, of whose payload `got` has arrived and was unmasked. */
    ghost predicate Inside(h: Header, got: bytes)
      reads this
    {
      var s := stream.state;
      && !wantsHead
      && spill == []
      && |got| < h.length
      && remainingBytes == h.length - |got| <= UINT_MAX
      && mask == Rotate(h.key, |got|)
      && lastFin == h.fin
      && HeaderError(cfg, s, h).None?
      && Delivering(s, h, got)
    }

    /** The part of `Inside` that deals with fragments. */
    ghost predicate Delivering(s: State, h: Header, got: bytes)
      reads `opCode, `opStack, `inflated, `compressionStatus, `fragmentedMessage, `controlTipLength, `closeSent, `fragmentBuffer
    {
      && |opCode| == 2
      && inflated == s.history
      && compressionStatus == StatusOf(cfg, s.compressed || h.rsv1)
      && if IsData(h.op) then
           && opStack == 0 && opCode[0] == EffectiveOp(s, h)
           && fragmentedMessage == !h.fin
           && controlTipLength == 0
           && (if closeSent then !TooLong(cfg, |fragmentBuffer|) else fragmentBuffer == s.data + got)
         else
           && opStack == (if s.open then 1 else 0) && opCode[opStack] == h.op
           && (s.open ==> opCode[0] == s.op)
           && fragmentedMessage == s.open
           && controlTipLength == |got| <= |fragmentBuffer|
           && fragmentBuffer[|fragmentBuffer| - |got|..] == got
           && (if closeSent then !TooLong(cfg, |fragmentBuffer| - |got|)
               else fragmentBuffer[..|fragmentBuffer| - |got|] == s.data)
    }

    ghost predicate Valid()
      reads this
    {
      && Basics()
      && (!closing && wantsHead ==>
            Between(stream.state.compressed) && spill == stream.pending && ParseHeader(spill).None?)
      && (!closing && !wantsHead ==>
            && ParseHeader(stream.pending).Some?
            && var h := ParseHeader(stream.pending).value;
               Inside(h, Unmask(stream.pending[h.Size()..], h.key)))
    }

    constructor (cfg: Config, simd: Simd)
      ensures Valid() && stream == Stream(START, []) && events == []
      ensures this.cfg == cfg && fresh(headerBuffer)
    {
      this.cfg := cfg;
      this.simd := simd;
      headerBuffer := new byte[27];
      wantsHead, spill, opStack, lastFin, fragmentedMessage := true, [], -1, true, false;
      opCode := [CONTINUATION, CONTINUATION];
      remainingBytes, mask := 0, [0, 0, 0, 0];
      compressionStatus := StatusOf(cfg, false);
      inflated, fragmentBuffer, controlTipLength := [], [], 0;
      events, closing, closeSent, failureCode := [], false, false, 1002;
      stream, said := Stream(START, []), [];
    }

    // ----- events

    method Emit(e: SessionEvent, ghost v: Event, ghost buf: array<byte>, ghost limit: nat)
      requires limit <= buf.Length && ConveyAll(events, said, buf, limit) && Conveys(e, v, buf, buf[..], limit)
      modifies `events, `said
      ensures said == old(said) + [v] && ConveyAll(events, said, buf, limit)
    {
      events := events + [e];
      said := said + [v];
    }

    method FormatFrame(op: nat, payload: bytes, compressed: bool) returns (frame: bytes)
      requires op < 16 && |payload| < 0x8000_0000_0000_0000
      ensures frame == ServerFrame(op, payload, compressed)
    {
      var header := new byte[14];
      var size := FormatMessageHeader(header, op, |payload|, compressed);
      frame := header[..size] + payload;
    }

    method FormatClose(code: nat, message: bytes) returns (frame: bytes)
      requires code < 0x1_0000
      ensures frame == WireFrame(SendClose(code, message))
    {
      var reason := if |message| <= MAX_REASON then message else message[..MAX_REASON];
      var payload := new byte[MAX_REASON + 2];
      var size := FormatClosePayload(payload, code, reason, simd);
      frame := FormatFrame(CLOSE, payload[..size], false);
    }

    method Fail(code: nat, ghost s: State, ghost buf: array<byte>, ghost limit: nat)
      requires !closing && code < 0x1_0000 && s.closeSent == closeSent
      requires limit <= buf.Length && ConveyAll(events, said, buf, limit)
      modifies `closing, `closeSent, `events, `said
      ensures closing && closeSent && said == old(said) + Failed(s, code).events
      ensures ConveyAll(events, said, buf, limit)
    {
      closing := true;
      if !closeSent {
        closeSent := true;
        var frame := FormatClose(code, []);
        Emit(FrameEvent(frame), SendClose(code, []), buf, limit);
      }
      Emit(CloseEvent(ABNORMAL, []), Closed(ABNORMAL, []), buf, limit);
    }

    // ----- fragments

    /** The session agrees with `o` on all that outlives a frame, save buffered fragments. */
    ghost predicate Agrees(o: State)
      reads this
    {
      && closing == o.closing && closeSent == o.closeSent
      && (!closing ==>
            && failureCode == 1002
            && compressionStatus == StatusOf(cfg, o.compressed)
            && inflated == o.history)
    }

    /** The fragments buffered are those of the message in progress in `o`; after a Close, some that fit. */
    ghost predicate Buffers(o: State)
      reads this
    {
      !closing ==> controlTipLength == 0 && if closeSent then !TooLong(cfg, |fragmentBuffer|) else fragmentBuffer == o.data
    }

    /** The session took the step `o`. */
    twostate predicate Took(o: Outcome, stop: bool)
      reads this
    {
      said == old(said) + o.events && stop == o.state.closing && Agrees(o.state)
    }

    /** The inflate loop: pieces are collected until the run ends or the limit is passed. */
    method InflateMessage(data: bytes) returns (r: InflateResult)
      modifies `inflated
      ensures inflated == old(inflated) + [data]
      ensures r == InflateOutcome(Inflate(cfg, old(inflated), data), cfg.maxPayload)
    {
      var run := Inflate(cfg, inflated, data);
      inflated := inflated + [data];
      var output: bytes := [];
      var i := 0;
      while i < |run.pieces|
        invariant i <= |run.pieces| && inflated == old(inflated) + [data]
        invariant Concat(run.pieces) == output + Concat(run.pieces[i..])
        invariant cfg.maxPayload == 0 || |output| <= cfg.maxPayload
      {
        ConcatFrom(run.pieces, i);
        if |run.pieces[i]| > 0 {
          if cfg.maxPayload != 0 && |output| + |run.pieces[i]| > cfg.maxPayload {
            assert Concat(run.pieces) == output + run.pieces[i] + Concat(run.pieces[i + 1..]);
            return PayloadTooLarge;
          }
          output := output + run.pieces[i];
        }
        i := i + 1;
      }
      assert run.pieces[i..] == [];
      match run.end
      case Finished => return Inflated(output);
      case Corrupt => return InvalidData;
      case Broken => return InternalError;
    }

    /** A whole message: inflate it if need be, check its text, and hand it out. */
    method DeliverMessage(payload: Payload, whole: bytes, op: nat, ghost s: State, ghost buf: array<byte>, ghost limit: nat)
      returns (stop: bool)
      requires !closing && Agrees(s) && (s.compressed ==> cfg.deflate)
      requires limit <= buf.Length && ConveyAll(events, said, buf, limit)
      requires op == s.op && Conveys(MessageEvent(op, payload), Message(op, whole), buf, buf[..], limit)
      modifies `closing, `closeSent, `events, `said, `compressionStatus, `inflated, `failureCode
      ensures Took(MessageComplete(cfg, s, whole), stop)
      ensures ConveyAll(events, said, buf, limit)
    {
      if compressionStatus == COMPRESSED_FRAME {
        compressionStatus := ENABLED;
        var result := InflateMessage(whole);
        ghost var s' := s.(compressed := false, history := s.history + [whole]);
        if !result.Inflated? {
          failureCode := if result == PayloadTooLarge then 1009 else if result == InternalError then 1011 else 1007;
          Fail(failureCode, s', buf, limit);
          return true;
        }
        stop := DeliverText(Owned(result.data), result.data, op, s', buf, limit);
      } else {
        stop := DeliverText(payload, whole, op, s, buf, limit);
      }
    }

    method DeliverText(payload: Payload, data: bytes, op: nat, ghost s: State, ghost buf: array<byte>, ghost limit: nat)
      returns (stop: bool)
      requires !closing && Agrees(s)
      requires limit <= buf.Length && ConveyAll(events, said, buf, limit)
      requires op == s.op && Conveys(MessageEvent(op, payload), Message(op, data), buf, buf[..], limit)
      modifies `closing, `closeSent, `events, `said, `failureCode
      ensures Took(TextChecked(s, data), stop)
      ensures ConveyAll(events, said, buf, limit)
    {
      if op == TEXT {
        var valid := Utf8.IsValidUtf8(data, simd);
        if !valid {
          failureCode := 1007;
          Fail(failureCode, s, buf, limit);
          return true;
        }
      }
      Emit(MessageEvent(op, payload), Message(op, data), buf, limit);
      return false;
    }

    method AppendFragment(data: bytes, remaining: nat, ghost s: State, ghost buf: array<byte>, ghost limit: nat)
      returns (ok: bool)
      requires !closing && closeSent == s.closeSent && !s.closing && failureCode == 1002
      requires limit <= buf.Length && ConveyAll(events, said, buf, limit)
      modifies `fragmentBuffer, `failureCode, `closing, `closeSent, `events, `said
      ensures ok == !TooLong(cfg, |old(fragmentBuffer)| + |data| + remaining)
      ensures ok ==> && fragmentBuffer == old(fragmentBuffer) + data && said == old(said)
                     && !closing && closeSent == old(closeSent) && failureCode == 1002
      ensures !ok ==> closing && closeSent && said == old(said) + Failed(s, 1009).events
      ensures ConveyAll(events, said, buf, limit)
    {
      var required := |fragmentBuffer| + |data| + remaining;
      if (cfg.maxPayload != 0 && required > cfg.maxPayload) || required > UINT_MAX {
        failureCode := 1009;
        Fail(failureCode, s, buf, limit);
        return false;
      }
      fragmentBuffer := fragmentBuffer + data;
      return true;
    }

    /** The octets at `start` may be lent out: they lie in the part of `home` that stays as it is, if there are any. */
    ghost predicate Lendable(buf: array<byte>, start: nat, length: nat, home: array<byte>, limit: nat)
      reads this, home
    {
      && start + length <= buf.Length && limit <= home.Length
      && (length == 0 || (buf == home && start + length <= limit))
      && ConveyAll(events, said, home, limit)
    }

    /** What the parser has established when it delivers the next piece of a frame. */
    ghost predicate Deliverable(s: State, h: Header, got: bytes, length: nat, remaining: nat)
      reads `opCode, `opStack, `inflated, `compressionStatus, `fragmentedMessage, `controlTipLength, `closeSent, `fragmentBuffer, `closing, `failureCode
    {
      && !closing && !s.closing && closeSent == s.closeSent && failureCode == 1002
      && Sound(cfg, s) && HeaderPassed(cfg, s, h) && (got != [] ==> !(IsData(h.op) && MessageTooLong(cfg, s, h)))
      && |got| + length + remaining == h.length
      && Delivering(s, h, got)
    }

    /** The session after that piece: refused, inside the frame still, or past it. */
    twostate predicate Delivered(s: State, h: Header, whole: bytes, remaining: nat, stop: bool)
      requires |whole| + remaining == h.length
      reads this
    {
      if remaining == 0 then
        var o := Apply(cfg, s, Frame(h, whole));
        Took(o, stop) && Buffers(o.state)
      else match HeaderError(cfg, s, h)
        case Some(code) => stop && closing && closeSent && said == old(said) + Failed(s, code).events
        case None =>
          && !stop && !closing && closeSent == s.closeSent && failureCode == 1002
          && said == old(said) && Delivering(s, h, whole)
    }

    method HandleFragment(buf: array<byte>, start: nat, length: nat, remaining: nat, op: nat, fin: bool,
                          ghost s: State, ghost h: Header, ghost got: bytes,
                          ghost home: array<byte>, ghost limit: nat) returns (stop: bool)
      requires Lendable(buf, start, length, home, limit) && Deliverable(s, h, got, length, remaining)
      requires op == opCode[opStack] && fin == h.fin
      modifies `closing, `closeSent, `events, `said, `fragmentBuffer, `controlTipLength,
               `compressionStatus, `inflated, `failureCode
      ensures var d := Delivered(s, h, got + buf[start..start + length], remaining, stop); d
      ensures ConveyAll(events, said, home, limit)
    {
      OpcodeOf(s, h, got);
      if closeSent && op != CLOSE && op != PING && op != PONG {
        DataStep(cfg, s, h, got + buf[start..start + length]);
        return false;
      }
      if op < 3 {
        stop := HandleDataFragment(buf, start, length, remaining, op, fin, s, h, got, home, limit);
      } else {
        stop := HandleControlFragment(buf, start, length, remaining, op, fin, s, h, got, home, limit);
      }
    }

    method HandleDataFragment(buf: array<byte>, start: nat, length: nat, remaining: nat, op: nat, fin: bool,
                              ghost s: State, ghost h: Header, ghost got: bytes,
                              ghost home: array<byte>, ghost limit: nat) returns (stop: bool)
      requires Lendable(buf, start, length, home, limit) && Deliverable(s, h, got, length, remaining)
      requires op == opCode[opStack] && fin == h.fin && op < 3 && !closeSent
      modifies `closing, `closeSent, `events, `said, `fragmentBuffer, `compressionStatus, `inflated, `failureCode
      ensures var d := Delivered(s, h, got + buf[start..start + length], remaining, stop); d
      ensures ConveyAll(events, said, home, limit)
    {
      hide ConveyAllIn, Conveys, Unmask;
      ghost var whole := got + buf[start..start + length];
      OpcodeOf(s, h, got);
      assert s.data + whole == fragmentBuffer + buf[start..start + length];
      DataStep(cfg, s, h, whole);
      CompleteBuffers(cfg, DataState(s, h).(data := []), s.data + whole);
      stop := HandleData(buf, start, length, remaining, op, fin, DataState(s, h), home, limit);
    }

    method HandleControlFragment(buf: array<byte>, start: nat, length: nat, remaining: nat, op: nat, fin: bool,
                                 ghost s: State, ghost h: Header, ghost got: bytes,
                                 ghost home: array<byte>, ghost limit: nat) returns (stop: bool)
      requires Lendable(buf, start, length, home, limit) && Deliverable(s, h, got, length, remaining)
      requires op == opCode[opStack] && fin == h.fin && IsControl(op)
      modifies `closing, `closeSent, `events, `said, `fragmentBuffer, `controlTipLength, `failureCode
      ensures var d := Delivered(s, h, got + buf[start..start + length], remaining, stop); d
      ensures ConveyAll(events, said, home, limit)
    {
      hide ConveyAllIn, Conveys, Unmask, ParseClosePayload;
      ghost var base := fragmentBuffer[..|fragmentBuffer| - |got|];
      OpcodeOf(s, h, got);
      assert fragmentBuffer == base + got;
      ControlStep(cfg, s, h, got + buf[start..start + length]);
      stop := HandleControl(buf, start, length, remaining, op, fin, s, base, got, home, limit);
    }

    lemma OpcodeOf(s: State, h: Header, got: bytes)
      requires Sound(cfg, s) && HeaderPassed(cfg, s, h) && Delivering(s, h, got)
      ensures IsData(h.op) <==> opCode[opStack] < 3
      ensures IsControl(h.op) <==> IsControl(opCode[opStack])
      ensures IsData(h.op) ==> opCode[opStack] == EffectiveOp(s, h)
      ensures IsControl(h.op) ==> opCode[opStack] == h.op
    {
    }

    /** What `HandleData` does with the fragments collected so far, `whole`. */
    twostate predicate HandledData(s: State, whole: bytes, remaining: nat, fin: bool, stop: bool)
      reads this
    {
      if TooLong(cfg, |whole| + remaining) then
        stop && closing && closeSent && said == old(said) + Failed(s, 1009).events
      else if remaining > 0 || !fin then
        !stop && !closing && Agrees(s) && said == old(said) && fragmentBuffer == whole
      else
        var o := MessageComplete(cfg, s.(data := []), whole);
        Took(o, stop) && (!stop ==> fragmentBuffer == [])
    }

    /** What `HandleControl` does with the part of the control payload received so far, `whole`. */
    twostate predicate HandledControl(s: State, op: nat, base: bytes, whole: bytes, remaining: nat, stop: bool)
      requires |whole| < 126
      reads this
    {
      if remaining > 0 then
        && !stop && !closing && closeSent == s.closeSent && failureCode == old(failureCode)
        && said == old(said)
        && fragmentBuffer == base + whole && controlTipLength == |whole|
      else
        var o := DeliverControl(s, op, whole);
        && said == old(said) + o.events && stop == o.state.closing
        && closing == o.state.closing && closeSent == o.state.closeSent
        && (!stop ==> failureCode == old(failureCode) && fragmentBuffer == base && controlTipLength == 0)
    }

    /** The data branch: `s` is the session once the header of the frame was read. */
    method HandleData(buf: array<byte>, start: nat, length: nat, remaining: nat, op: nat, fin: bool,
                      ghost s: State, ghost home: array<byte>, ghost limit: nat)
      returns (stop: bool)
      requires Lendable(buf, start, length, home, limit)
      requires !closing && Agrees(s) && !closeSent && (s.compressed ==> cfg.deflate)
      requires op == s.op && controlTipLength == 0 && !TooLong(cfg, length + remaining)
      modifies `closing, `closeSent, `events, `said, `fragmentBuffer, `compressionStatus, `inflated, `failureCode
      ensures var whole := old(fragmentBuffer) + buf[start..start + length];
              HandledData(s, whole, remaining, fin, stop)
      ensures ConveyAll(events, said, home, limit)
    {
      var piece := buf[start..start + length];
      if remaining == 0 && fin && fragmentBuffer == [] {
        assert old(fragmentBuffer) + piece == piece;
        stop := DeliverMessage(View(buf, start, length), piece, op, s.(data := []), home, limit);
        return;
      }
      var ok := AppendFragment(piece, remaining, s, home, limit);
      if !ok {
        return true;
      }
      if remaining == 0 && fin {
        stop := DeliverMessage(Owned(fragmentBuffer), fragmentBuffer, op, s.(data := []), home, limit);
        if !stop {
          fragmentBuffer := [];
        }
        return;
      }
      return false;
    }

    /** A Close from the peer: answer it unless a Close was sent before, then report it. */
    method HandleClose(payload: bytes, ghost s: State, ghost home: array<byte>, ghost limit: nat)
      requires !closing && closeSent == s.closeSent && |payload| < 126
      requires limit <= home.Length && ConveyAll(events, said, home, limit)
      modifies `closing, `closeSent, `events, `said, `failureCode
      ensures closing && closeSent && said == old(said) + DeliverControl(s, CLOSE, payload).events
      ensures ConveyAll(events, said, home, limit)
    {
      var close := ParseClosePayload(payload);
      if close.code == ABNORMAL {
        failureCode := 1002;
        Fail(failureCode, s, home, limit);
        return;
      }
      closing := true;
      if !closeSent {
        closeSent := true;
        var frame := FormatClose(close.code, close.reason);
        Emit(FrameEvent(frame), SendClose(close.code, close.reason), home, limit);
      }
      Emit(CloseEvent(close.code, close.reason), Closed(close.code, close.reason), home, limit);
    }

    /** The control branch: `base` is kept for the message that the frame may interrupt. */
    method HandleControl(buf: array<byte>, start: nat, length: nat, remaining: nat, op: nat, fin: bool,
                         ghost s: State, ghost base: bytes, ghost got: bytes,
                         ghost home: array<byte>, ghost limit: nat) returns (stop: bool)
      requires Lendable(buf, start, length, home, limit)
      requires !closing && !s.closing && closeSent == s.closeSent && fin && IsControl(op)
      requires fragmentBuffer == base + got && controlTipLength == |got| && |got| + length + remaining < 126
      modifies `closing, `closeSent, `events, `said, `fragmentBuffer, `controlTipLength, `failureCode
      ensures var whole := got + buf[start..start + length];
              HandledControl(s, op, base, whole, remaining, stop)
      ensures ConveyAll(events, said, home, limit)
    {
      hide ConveyAllIn, ParseClosePayload;
      var piece := buf[start..start + length];
      if remaining == 0 && fin && controlTipLength == 0 {
        assert got + piece == piece && base + got == base;
        if op == CLOSE {
          HandleClose(piece, s, home, limit);
          return true;
        }
        if op == PING {
          var frame := FormatFrame(PONG, piece, false);
          Emit(FrameEvent(frame), SendPong(piece), home, limit);
        }
        return false;
      }

      fragmentBuffer := fragmentBuffer + piece;
      controlTipLength := controlTipLength + length;
      assert fragmentBuffer == base + (got + piece);
      var tip := |fragmentBuffer| - controlTipLength;
      assert fragmentBuffer[..tip] == base && fragmentBuffer[tip..] == got + piece;

      if remaining == 0 && fin {
        var control := fragmentBuffer[tip..];
        if op == CLOSE {
          HandleClose(control, s, home, limit);
          return true;
        }
        if op == PING {
          var frame := FormatFrame(PONG, control, false);
          Emit(FrameEvent(frame), SendPong(control), home, limit);
        }
        fragmentBuffer := fragmentBuffer[..tip];
        controlTipLength := 0;
      }
      return false;
    }

    // ----- the parser

    method RefusePayloadLength(length: nat) returns (refuse: bool)
      requires failureCode == 1002
      modifies `failureCode
      ensures refuse == TooLong(cfg, length) && failureCode == if refuse then 1009 else 1002
    {
      if (cfg.maxPayload != 0 && length > cfg.maxPayload) || length > UINT_MAX {
        failureCode := 1009;
        return true;
      }
      return false;
    }

    method SetCompressed() returns (accepted: bool)
      modifies `compressionStatus
      ensures accepted == (old(compressionStatus) == ENABLED)
      ensures compressionStatus == if accepted then COMPRESSED_FRAME else old(compressionStatus)
    {
      if compressionStatus == ENABLED {
        compressionStatus := COMPRESSED_FRAME;
        return true;
      }
      return false;
    }

    /** Ready for the header of the next frame, or for what follows it. */
    ghost predicate ReadyFor(compressed: bool)
      reads this
    {
      Basics() && !closing && stream.pending == [] && Between(compressed)
    }

    /** The session is past a step with outcome `o`: closed, or ready for the next frame. */
    ghost predicate Past(o: Outcome, before: seq<Event>, stop: bool)
      reads this
    {
      && stream == Stream(o.state, []) && said == before + o.events && stop == closing && Basics()
      && (!stop ==> ReadyFor(o.state.compressed) && spill == [])
    }

    /** The header `h` is read and accepted but for the length of the whole message; `stream` is not updated yet. */
    ghost predicate HeaderTaken(s: State, h: Header)
      reads this
    {
      && stream == Stream(s, []) && Basics() && wantsHead && lastFin == h.fin
      && Deliverable(s, h, [], h.length, 0)
    }

    /** Delivers the last octets of a frame, and makes the session ready for the next. */
    method FinishFrame(buf: array<byte>, start: nat, length: nat, fin: bool,
                       ghost s: State, ghost h: Header, ghost got: bytes, ghost whole: bytes,
                       ghost home: array<byte>, ghost limit: nat) returns (stop: bool)
      requires Lendable(buf, start, length, home, limit)
      requires var deliverable := Deliverable(s, h, got, length, 0); deliverable
      requires stream.state == s && Basics() && fin == h.fin && whole == got + buf[start..start + length]
      modifies this
      ensures Past(Apply(cfg, s, Frame(h, whole)), old(said), stop)
      ensures ConveyAll(events, said, home, limit)
    {
      ghost var o := Apply(cfg, s, Frame(h, whole));
      StackAfter(s, h, got, whole);
      stop := HandleFragment(buf, start, length, 0, opCode[opStack], fin, s, h, got, home, limit);
      EndFrame(fin, stop, o.state);
    }

    method ForceClose(ghost s: State, ghost home: array<byte>, ghost limit: nat)
      requires headerBuffer.Length == 27 && |opCode| == 2 && Sound(cfg, s)
      requires !closing && !s.closing && closeSent == s.closeSent
      requires limit <= home.Length && ConveyAll(events, said, home, limit)
      requires failureCode < 0x1_0000
      modifies `closing, `closeSent, `events, `said, `stream
      ensures Past(Failed(s, old(failureCode)), old(said), true)
      ensures ConveyAll(events, said, home, limit)
    {
      Fail(failureCode, s, home, limit);
      stream := Stream(Failed(s, failureCode).state, []);
    }

    /** Delivers octets of a frame that does not end with them; the mask is rotated for the next ones. */
    method DeliverPart(buf: array<byte>, start: nat, length: nat, remaining: nat, fin: bool,
                       ghost s: State, ghost h: Header, ghost got: bytes, ghost whole: bytes,
                       ghost home: array<byte>, ghost limit: nat) returns (stop: bool)
      requires Lendable(buf, start, length, home, limit)
      requires var deliverable := Deliverable(s, h, got, length, remaining); deliverable
      requires stream.state == s && Basics() && fin == h.fin && 0 < remaining <= UINT_MAX
      requires whole == got + buf[start..start + length]
      requires !wantsHead && spill == [] && lastFin == h.fin && remainingBytes == remaining
      requires mask == Rotate(h.key, |got|)
      modifies this
      ensures stop <==> HeaderError(cfg, s, h).Some?
      ensures stop ==> Past(Failed(s, 1009), old(said), true)
      ensures !stop ==> stream == old(stream) && said == old(said) && !closing && !wantsHead
      ensures !stop ==> var amid := Amid(h, whole); amid
      ensures ConveyAll(events, said, home, limit)
    {
      hide ConveyAllIn, Unmask, Conveys;
      OpcodeOf(s, h, got);
      RefusalIsTooLong(cfg, s, h);
      stop := HandleFragment(buf, start, length, remaining, opCode[opStack], fin, s, h, got, home, limit);
      EndPart(stop, length, s, h, |got|, whole);
    }

    method EndPart(stop: bool, length: nat, ghost s: State, ghost h: Header, ghost done: nat, ghost whole: bytes)
      requires closing == stop && headerBuffer.Length == 27 && |opCode| == 2 && Sound(cfg, s)
      requires stop ==> closeSent
      requires !stop ==>
                 && stream.state == s && closeSent == s.closeSent && failureCode == 1002 && !s.closing
                 && !wantsHead && spill == [] && lastFin == h.fin
                 && |whole| < h.length && remainingBytes == h.length - |whole| <= UINT_MAX
                 && HeaderError(cfg, s, h).None?
      requires !stop ==> var delivering := Delivering(s, h, whole); delivering
      requires |whole| == done + length && mask == Rotate(h.key, done)
      modifies `mask, `stream
      ensures stop ==> stream == Stream(Failed(s, 1009).state, []) && Basics()
      ensures !stop ==> stream == old(stream) && Amid(h, whole)
    {
      if stop {
        stream := Stream(Failed(s, 1009).state, []);
      } else {
        RotateBy(length, h.key, done);
      }
    }

    ghost predicate Amid(h: Header, got: bytes)
      reads this
    {
      Basics() && !closing && Inside(h, got)
    }

    method RotateBy(length: nat, ghost key: Key, ghost done: nat)
      requires mask == Rotate(key, done)
      modifies `mask
      ensures mask == Rotate(key, done + length)
    {
      RotateRotate(key, done, length);
      RotateModulo(mask, length);
      if length % 4 != 0 {
        mask := RotateMask(4 - length % 4, mask);
      }
    }

    /** Pops the opcode of a message or control frame that has ended; the next header may come. */
    method EndFrame(fin: bool, stop: bool, ghost o: State)
      requires Agrees(o) && Buffers(o) && Sound(cfg, o) && stop == closing
      requires headerBuffer.Length == 27 && |opCode| == 2
      requires !stop ==> PoppedStack(fin, o)
      modifies `opStack, `wantsHead, `spill, `stream
      ensures stream == Stream(o, []) && Basics() && (!stop ==> ReadyFor(o.compressed) && spill == [])
    {
      stream := Stream(o, []);
      if !stop {
        if fin {
          opStack := opStack - 1;
        }
        wantsHead := true;
        spill := [];
      }
    }

    /** The fragmentation rules, and the opcode stack. */
    method TakeOpCode(op: nat, fin: bool, ghost s: State, ghost h: Header) returns (bad: bool)
      requires var ready := ReadyFor(s.compressed || h.rsv1); ready
      requires stream == Stream(s, []) && !MalformedHeader(cfg, s, h)
      requires op == h.op && fin == h.fin
      modifies `fragmentedMessage, `opStack, `opCode, `lastFin
      ensures bad <==> IsData(op) && (op == CONTINUATION) != s.open
      ensures |opCode| == 2
      ensures !bad ==> lastFin == h.fin && Delivering(s, h, [])
    {
      if op == TEXT || op == BINARY {
        if fragmentedMessage {
          return true;
        }
        fragmentedMessage := !fin;
      } else if op == CONTINUATION {
        if !fragmentedMessage {
          return true;
        }
        if fin {
          fragmentedMessage := false;
        }
      }
      if op != CONTINUATION {
        assert opStack != 1;  // the stack never overflows
        opStack := opStack + 1;
        opCode := opCode[opStack := op];
      } else {
        assert opStack != -1;  // a continuation always finds the opcode it continues
      }
      lastFin := fin;
      return false;
    }

    /** Accepts a well-formed header, or closes the session. */
    method TakeHeader(payLength: nat, op: nat, fin: bool,
                      ghost s: State, ghost h: Header, ghost home: array<byte>, ghost limit: nat)
      returns (refused: bool)
      requires var ready := ReadyFor(s.compressed || h.rsv1); ready
      requires stream == Stream(s, []) && !MalformedHeader(cfg, s, h)
      requires op == h.op && fin == h.fin && payLength == h.length
      requires limit <= home.Length && ConveyAll(events, said, home, limit)
      modifies `fragmentedMessage, `opStack, `opCode, `lastFin, `failureCode,
               `closing, `closeSent, `events, `said, `stream
      ensures refused ==>
                HeaderError(cfg, s, h).Some? && Past(Failed(s, HeaderError(cfg, s, h).value), old(said), true)
      ensures !refused ==> HeaderTaken(s, h) && said == old(said)
      ensures ConveyAll(events, said, home, limit)
    {
      refused := TakeOpCode(op, fin, s, h);
      if !refused && op <= BINARY {
        refused := RefusePayloadLength(payLength);
      }
      if refused {
        ForceClose(s, home, limit);
      }
    }

    /** The result of reading on from `b`: the step the reference takes, and where the session is after it. */
    ghost predicate Stepped(s: State, before: seq<Event>, b: bytes, stop: bool, rest: bytes)
      reads this
    {
      match NextStep(cfg, s, b)
      case More => stop && stream == Stream(s, b) && said == before && !closing && !wantsHead && Valid()
      case Done(o, size) => Past(o, before, stop) && (!stop ==> rest == b[size..])
    }

    lemma RefusedIsStep(s: State, before: seq<Event>, b: bytes, h: Header, rest: bytes)
      requires ParseHeader(b) == Some(h) && HeaderError(cfg, s, h).Some?
      requires var past := Past(Failed(s, HeaderError(cfg, s, h).value), before, true); past
      ensures Stepped(s, before, b, true, rest)
    {
    }

    lemma WholeIsStep(s: State, before: seq<Event>, b: bytes, h: Header, whole: bytes, stop: bool, rest: bytes)
      requires ParseHeader(b) == Some(h) && h.Size() + h.length <= |b|
      requires whole == Unmask(b[h.Size()..h.Size() + h.length], h.key) && rest == b[h.Size() + h.length..]
      requires var past := Past(Apply(cfg, s, Frame(h, whole)), before, stop); past
      ensures Stepped(s, before, b, stop, rest)
    {
      ParsedStep(cfg, s, h, b);
    }

    /** Records that `b`, the start of a frame, is pending. */
    ghost method Suspend(s: State, b: bytes, h: Header, got: bytes, rest: bytes)
      requires stream.state == s && HeaderError(cfg, s, h).None?
      requires ParseHeader(b) == Some(h) && h.Size() + h.length > |b| && got == Unmask(b[h.Size()..], h.key)
      requires var amid := Amid(h, got); amid
      modifies `stream
      ensures var stepped := Stepped(s, said, b, true, rest); stepped
    {
      ParsedStep(cfg, s, h, b);
      SetPending(b, h, got);
    }

    /** One frame whose header is complete and well formed. */
    method ConsumeMessage(payLength: nat, messageHeader: nat, buf: array<byte>, src: nat, length: nat,
                          ghost s: State, ghost h: Header, ghost b: bytes, ghost home: array<byte>)
      returns (stop: bool, src': nat, length': nat)
      requires src + length <= buf.Length && b == buf[src..src + length] && ParseHeader(b) == Some(h)
      requires payLength == h.length && messageHeader == h.Size()
      requires var ready := ReadyFor(s.compressed || h.rsv1); ready
      requires stream == Stream(s, []) && !MalformedHeader(cfg, s, h)
      requires ConveyAll(events, said, home, if buf == home then src else 0)
      requires buf == home || length <= messageHeader
      modifies this, buf
      ensures src <= src' && src' + length' == src + length
      ensures var stepped := Stepped(s, old(said), b, stop, buf[src'..src' + length']);
              stepped
      ensures ConveyAll(events, said, home, if buf == home then src' else 0)
    {
      HeaderFacts(b, h);
      var op, fin := GetOpCode(buf[src]), IsFin(buf[src]);
      stop := TakeHeader(payLength, op, fin, s, h, home, if buf == home then src else 0);
      src', length' := src, length;
      if stop {
        RefusedIsStep(s, old(said), b, h, buf[src'..src' + length']);
      } else {
        stop, src', length' := ConsumePayload(payLength, messageHeader, buf, src, length, fin, s, h, b, home);
      }
    }

    method ConsumePayload(payLength: nat, messageHeader: nat, buf: array<byte>, src: nat, length: nat, fin: bool,
                          ghost s: State, ghost h: Header, ghost b: bytes, ghost home: array<byte>)
      returns (stop: bool, src': nat, length': nat)
      requires src + length <= buf.Length && b == buf[src..src + length] && ParseHeader(b) == Some(h)
      requires payLength == h.length && messageHeader == h.Size() && fin == h.fin
      requires var taken := HeaderTaken(s, h); taken
      requires ConveyAll(events, said, home, if buf == home then src else 0)
      requires buf == home || length <= messageHeader
      modifies this, buf
      ensures src <= src' && src' + length' == src + length
      ensures var stepped := Stepped(s, old(said), b, stop, buf[src'..src' + length']); stepped
      ensures var conveyed := ConveyAll(events, said, home, if buf == home then src' else 0); conveyed
    {
      hide ConveyAll, Stepped, ParseHeader, Unmask, HeaderTaken, Past, HeaderError, NextStep;
      HeaderFacts(b, h);
      if payLength + messageHeader <= length {
        stop, src', length' := ConsumeWhole(payLength, messageHeader, buf, src, length, s, h, b, home);
      } else {
        stop, src', length' := true, src + length, 0;
        ConsumeStart(payLength, messageHeader, buf, src, length, fin, s, h, b, home);
        assert buf[src'..src' + length'] == [];
      }
    }

    method ConsumeWhole(payLength: nat, messageHeader: nat, buf: array<byte>, src: nat, length: nat,
                        ghost s: State, ghost h: Header, ghost b: bytes, ghost home: array<byte>)
      returns (stop: bool, src': nat, length': nat)
      requires src + length <= buf.Length && b == buf[src..src + length] && ParseHeader(b) == Some(h)
      requires 6 <= messageHeader == h.Size() && payLength == h.length && payLength + messageHeader <= length
      requires var taken := HeaderTaken(s, h); taken
      requires h.key == b[messageHeader - 4..messageHeader] && IsFin(b[0]) == h.fin
      requires ConveyAll(events, said, home, if buf == home then src else 0)
      requires buf == home || payLength == 0
      modifies this, buf
      ensures src <= src' && src' + length' == src + length
      ensures var stepped := Stepped(s, old(said), b, stop, buf[src'..src' + length']); stepped
      ensures var conveyed := ConveyAll(events, said, home, if buf == home then src' else 0); conveyed
    {
      hide ConveyAll, ParseHeader, Unmask, HeaderError, Past, Stepped, Apply, NextStep;
      var dst, size := src + messageHeader - 4, messageHeader + payLength;
      src', length' := src + size, length - size;
      ghost var whole, rest := Unmask(b[messageHeader..size], h.key), b[size..];
      UnmaskWhole(payLength, messageHeader, buf, src, length, b, home);
      assert src + length == src' + length';
      assert buf[src'..src' + length'] == rest;
      stop := DeliverWhole(buf, dst, payLength, IsFin(buf[src]), s, h, b, whole, rest, home, if buf == home then src' else 0);
    }

    /** Delivers a payload that arrived whole and was unmasked at `dst`. */
    method DeliverWhole(buf: array<byte>, dst: nat, payLength: nat, fin: bool, ghost s: State, ghost h: Header,
                        ghost b: bytes, ghost whole: bytes, ghost rest: bytes, ghost home: array<byte>, ghost limit: nat)
      returns (stop: bool)
      requires ParseHeader(b) == Some(h) && payLength == h.length && h.Size() + payLength <= |b| && fin == h.fin
      requires Lendable(buf, dst, payLength, home, limit) && buf[dst..dst + payLength] == whole
      requires whole == Unmask(b[h.Size()..h.Size() + h.length], h.key) && rest == b[h.Size() + h.length..]
      requires var taken := HeaderTaken(s, h); taken
      modifies this
      ensures var stepped := Stepped(s, old(said), b, stop, rest); stepped
      ensures var conveyed := ConveyAll(events, said, home, limit); conveyed
    {
      hide ConveyAll, ParseHeader, Unmask, HeaderError, Past, Stepped, Apply, NextStep;
      assert whole == [] + buf[dst..dst + payLength];
      stop := FinishFrame(buf, dst, payLength, fin, s, h, [], whole, home, limit);
      WholeIsStep(s, old(said), b, h, whole, stop, rest);
    }

    /** The payload moves 4 octets down, over the key, which is copied first. */
    method UnmaskWhole(payLength: nat, messageHeader: nat, buf: array<byte>, src: nat, length: nat,
                       ghost b: bytes, ghost home: array<byte>)
      requires src + length <= buf.Length && b == buf[src..src + length]
      requires 6 <= messageHeader && payLength + messageHeader <= length
      requires ConveyAll(events, said, home, if buf == home then src else 0)
      modifies buf
      ensures var dst, size := src + messageHeader - 4, messageHeader + payLength;
              && buf[dst..dst + payLength] == Unmask(b[messageHeader..size], b[messageHeader - 4..messageHeader])
              && buf[src + size..src + length] == b[size..]
      ensures IsFin(buf[src]) == IsFin(b[0])
      ensures ConveyAll(events, said, home, if buf == home then src + messageHeader + payLength else 0)
    {
      hide ConveyAllIn, Unmask;
      var dst := src + messageHeader - 4;
      var key := buf[dst..src + messageHeader];
      UnmaskImprecise(buf, dst, src + messageHeader, key, payLength, simd);
      WholeFrame(old(buf[..]), buf[..], src, length, messageHeader, payLength);
      if buf == home {
        StillConvey(events, said, buf, old(buf[..]), buf[..], src, src + messageHeader + payLength);
      }
    }

    /** A frame that does not end in the buffer: what is there of its payload is delivered now. */
    method ConsumeStart(payLength: nat, messageHeader: nat, buf: array<byte>, src: nat, length: nat, fin: bool,
                        ghost s: State, ghost h: Header, ghost b: bytes, ghost home: array<byte>)
      requires src + length <= buf.Length && b == buf[src..src + length] && ParseHeader(b) == Some(h)
      requires 6 <= messageHeader == h.Size() <= length && payLength == h.length && payLength + messageHeader > length
      requires var taken := HeaderTaken(s, h); taken
      requires h.key == b[messageHeader - 4..messageHeader] && fin == h.fin
      requires ConveyAll(events, said, home, if buf == home then src else 0)
      requires buf == home || length <= messageHeader
      modifies this, buf
      ensures var stepped := Stepped(s, old(said), b, true, []); stepped
      ensures var conveyed := ConveyAll(events, said, home, if buf == home then src + length else 0); conveyed
    {
      hide ConveyAllIn, Stepped, ParseHeader, Unmask, Amid, Past, HeaderError;
      ghost var got := Unmask(b[messageHeader..], h.key);
      UnmaskStart(messageHeader, buf, src, length, b, home);
      EnterFrame(buf, src, length - messageHeader, payLength - length + messageHeader, fin, s, h,
                 got, home, if buf == home then src + length else 0);
      if HeaderError(cfg, s, h).Some? {
        RefusedIsStep(s, old(said), b, h, []);
      } else {
        Suspend(s, b, h, got, []);
      }
    }

    /** From here on the session expects the rest of the frame, not a header. */
    method EnterFrame(buf: array<byte>, start: nat, there: nat, remaining: nat, fin: bool,
                      ghost s: State, ghost h: Header, ghost got: bytes, ghost home: array<byte>, ghost limit: nat)
      requires var taken := HeaderTaken(s, h); taken && fin == h.fin
      requires there + remaining == h.length && remaining > 0
      requires Lendable(buf, start, there, home, limit) && mask == h.key && got == buf[start..start + there]
      modifies this
      ensures HeaderError(cfg, s, h).Some? ==>
                var past := Past(Failed(s, HeaderError(cfg, s, h).value), old(said), true); past
      ensures HeaderError(cfg, s, h).None? ==>
                && stream == Stream(s, []) && said == old(said)
                && var amid := Amid(h, got); amid
      ensures ConveyAll(events, said, home, limit)
    {
      hide ConveyAllIn, Conveys;
      spill := [];
      wantsHead := false;
      remainingBytes := remaining;
      assert got == [] + buf[start..start + there];
      PassedLength(cfg, s, h);
      RefusalIsTooLong(cfg, s, h);
      var stop := DeliverPart(buf, start, there, remaining, fin, s, h, [], got, home, limit);
    }

    /** The payload so far moves to the front of the chunk; its key is kept for the rest. */
    method UnmaskStart(messageHeader: nat, buf: array<byte>, src: nat, length: nat,
                       ghost b: bytes, ghost home: array<byte>)
      requires src + length <= buf.Length && b == buf[src..src + length] && 6 <= messageHeader <= length
      requires ConveyAll(events, said, home, if buf == home then src else 0)
      modifies `mask, buf
      ensures mask == b[messageHeader - 4..messageHeader]
      ensures buf[src..src + length - messageHeader] == Unmask(b[messageHeader..], mask)
      ensures ConveyAll(events, said, home, if buf == home then src + length else 0)
    {
      hide ConveyAllIn, Unmask, Xor;
      mask := buf[src + messageHeader - 4..src + messageHeader];
      UnmaskImprecise(buf, src, src + messageHeader, mask, length - messageHeader, simd);
      FrameStart(old(buf[..]), buf[..], src, length, messageHeader);
      if buf == home {
        StillConvey(events, said, buf, old(buf[..]), buf[..], src, src + length);
      }
    }

    ghost method SetPending(b: bytes, h: Header, got: bytes)
      requires Amid(h, got) && ParseHeader(b) == Some(h) && got == Unmask(b[h.Size()..], h.key)
      modifies `stream
      ensures stream == Stream(old(stream.state), b) && !closing && !wantsHead
      ensures var valid := Valid(); valid
    {
      stream := Stream(stream.state, b);
    }

    /** The checks on the first two octets of a frame; a compressed frame is noted in passing. */
    method CheckHeader(b0: byte, b1: byte, ghost s: State, ghost h: Header) returns (bad: bool)
      requires h.fin == IsFin(b0) && h.rsv1 == Rsv1(b0) && h.rsv23 == Rsv23(b0) && h.op == GetOpCode(b0)
      requires h.masked == IsMasked(b1) && h.form == FormOf(b1)
      requires compressionStatus == StatusOf(cfg, s.compressed) && Sound(cfg, s)
      modifies `compressionStatus
      ensures bad || !h.Minimal() <==> MalformedHeader(cfg, s, h)
      ensures !bad ==> compressionStatus == StatusOf(cfg, s.compressed || h.rsv1)
    {
      var op := GetOpCode(b0);
      var invalidCompressedFrame := false;
      if Rsv1(b0) {
        if op == 0 || op > 2 {
          invalidCompressedFrame := true;
        } else {
          var accepted := SetCompressed();
          invalidCompressedFrame := !accepted;
        }
      }
      return !IsMasked(b1) || invalidCompressedFrame || Rsv23(b0) || (2 < op < 8)
          || op > 10 || (op > 2 && (!IsFin(b0) || PayloadLength(b1) > 125));
    }

    /** The payload length, the size of the header, and whether the length is written in its shortest form. */
    method ReadLength(buf: array<byte>, src: nat, length: nat, ghost h: Header, ghost b: bytes)
      returns (payLength: nat, messageHeader: nat, minimal: bool)
      requires src + length <= buf.Length && b == buf[src..src + length] && ParseHeader(b) == Some(h)
      ensures payLength == h.length && messageHeader == h.Size() && minimal == h.Minimal()
    {
      var marker := PayloadLength(buf[src + 1]);
      if marker < 126 {
        return marker, 6, true;
      } else if marker == 126 {
        var extended := FromBigEndian(buf[src + 2..src + 4]);
        SliceOfSlice(buf[..], src, src + length, 2, 4);
        PairBound(b[2..4]);
        return extended, 8, extended >= 126;
      } else {
        var extended := FromBigEndian(buf[src + 2..src + 10]);
        SliceOfSlice(buf[..], src, src + length, 2, 10);
        return extended, 14, extended < 0x8000_0000_0000_0000 && extended > 0xFFFF;
      }
    }

    /** One turn of the parser's loop: the header of the next frame is complete. */
    method ParseFrame(buf: array<byte>, src: nat, length: nat, ghost s: State, ghost b: bytes, ghost home: array<byte>)
      returns (stop: bool, src': nat, length': nat)
      requires src + length <= buf.Length && b == buf[src..src + length] && ParseHeader(b).Some?
      requires stream == Stream(s, []) && ReadyFor(s.compressed)
      requires ConveyAll(events, said, home, if buf == home then src else 0)
      requires buf == home || length <= ParseHeader(b).value.Size()
      modifies this, buf
      ensures src <= src' && src' + length' == src + length
      ensures var stepped := Stepped(s, old(said), b, stop, buf[src'..src' + length']); stepped
      ensures ConveyAll(events, said, home, if buf == home then src' else 0)
    {
      hide ConveyAll, Stepped, ParseHeader, Unmask, Past, NextStep;
      ghost var h := ParseHeader(b).value;
      HeaderFacts(b, h);
      var payLength, messageHeader, minimal := ReadLength(buf, src, length, h, b);
      var bad := CheckHeader(buf[src], buf[src + 1], s, h);
      if bad || !minimal {
        src', length', stop := src, length, true;
        ForceClose(s, home, if buf == home then src else 0);
        RefusedIsStep(s, old(said), b, h, buf[src'..src' + length']);
      } else {
        stop, src', length' := ConsumeMessage(payLength, messageHeader, buf, src, length, s, h, b, home);
      }
    }

    /** The session is where draining `b` leads. */
    ghost predicate Drained(s: State, before: seq<Event>, b: bytes)
      reads this
    {
      var r := Drain(cfg, s, b);
      stream == r.stream && said == before + r.events && Valid()
    }

    /** A turn of the loop that ends it, inside a frame or with the session closed. */
    lemma LastTurn(s: State, before: seq<Event>, b: bytes, now: State, sofar: seq<Event>, rest: bytes, rest': bytes)
      requires var onTheWay := OnTheWay(cfg, s, before, b, now, sofar, rest); onTheWay
      requires var stepped := Stepped(now, sofar, rest, true, rest'); stepped
      requires !now.closing
      ensures var drained := Drained(s, before, b); drained
    {
      var q := Drain(cfg, now, rest);
      if NextStep(cfg, now, rest).More? {
        assert sofar + q.events == sofar;
      } else {
        var Done(o, size) := NextStep(cfg, now, rest);
        DrainStep(cfg, now, rest, o, size);
        assert Drain(cfg, o.state, rest[size..]) == Run(Stream(o.state, []), []);
        assert sofar + q.events == sofar + o.events;
      }
    }

    /** A turn of the loop after which it goes on. */
    lemma NextTurn(s: State, before: seq<Event>, b: bytes, now: State, sofar: seq<Event>, rest: bytes, rest': bytes)
      requires var onTheWay := OnTheWay(cfg, s, before, b, now, sofar, rest); onTheWay
      requires var stepped := Stepped(now, sofar, rest, false, rest'); stepped
      requires !now.closing
      ensures var onTheWay := OnTheWay(cfg, s, before, b, stream.state, said, rest'); onTheWay
    {
      OneStepOn(cfg, s, before, b, now, sofar, rest);
    }

    lemma ReadyAgain(now: State, sofar: seq<Event>, rest: bytes, rest': bytes)
      requires var stepped := Stepped(now, sofar, rest, false, rest'); stepped
      ensures var ready := ReadyFor(stream.state.compressed); ready
      ensures spill == [] && |rest'| < |rest| && (OneHeader(rest) ==> OneHeader(rest'))
    {
      OneHeaderLeft(cfg, now, rest);
    }

    /** No header is complete any more: what is left is pending. */
    ghost method Exhausted(s: State, before: seq<Event>, b: bytes)
      requires var ready := ReadyFor(stream.state.compressed); ready
      requires ParseHeader(spill).None?
      requires var onTheWay := OnTheWay(cfg, s, before, b, stream.state, said, spill); onTheWay
      modifies `stream
      ensures var drained := Drained(s, before, b); drained
    {
      hide HeaderError, Unmask;
      assert said + [] == said;
      stream := Stream(stream.state, spill);
    }

    /** One turn: `rest` is what is left of `b`. */
    method ParseTurn(buf: array<byte>, src: nat, length: nat, ghost s: State, ghost before: seq<Event>,
                     ghost b: bytes, ghost rest: bytes, ghost home: array<byte>)
      returns (stop: bool, src': nat, length': nat)
      requires src + length <= buf.Length && rest == buf[src..src + length] && ParseHeader(rest).Some?
      requires var ready := ReadyFor(stream.state.compressed); ready
      requires var onTheWay := OnTheWay(cfg, s, before, b, stream.state, said, rest); onTheWay
      requires ConveyAll(events, said, home, if buf == home then src else 0)
      requires buf == home || OneHeader(rest)
      modifies this, buf
      ensures src <= src' && src' + length' == src + length
      ensures stop ==> var drained := Drained(s, before, b); drained
      ensures !stop ==>
                var rest' := buf[src'..src' + length'];
                var ready, onTheWay := ReadyFor(stream.state.compressed), OnTheWay(cfg, s, before, b, stream.state, said, rest');
                ready && onTheWay && spill == [] && length' < length && (buf == home || OneHeader(rest'))
      ensures ConveyAll(events, said, home, if buf == home then src' else 0)
    {
      ghost var now, sofar := stream.state, said;
      stop, src', length' := ParseFrame(buf, src, length, now, rest, home);
      ghost var rest' := buf[src'..src' + length'];
      if stop {
        LastTurn(s, before, b, now, sofar, rest, rest');
      } else {
        NextTurn(s, before, b, now, sofar, rest, rest');
        ReadyAgain(now, sofar, rest, rest');
      }
    }

    /** The parser's loop: frames as long as their headers are complete, then the spill. */
    method ParseNext(buf: array<byte>, src0: nat, length0: nat, ghost s: State, ghost b: bytes, ghost home: array<byte>)
      requires src0 + length0 <= buf.Length && b == buf[src0..src0 + length0]
      requires stream == Stream(s, []) && (length0 == 0 ==> spill == [])
      requires var ready := ReadyFor(s.compressed); ready
      requires ConveyAll(events, said, home, if buf == home then src0 else 0)
      requires buf == home || OneHeader(b)
      modifies this, buf
      ensures var drained := Drained(s, old(said), b); drained
      ensures ConveyAll(events, said, home, if buf == home then src0 + length0 else 0)
    {
      hide Drain, NextStep, Drained, ReadyFor, ParseHeader, OneHeader, ConveyAllIn;
      var src: nat, length: nat, stop := src0, length0, false;
      ghost var rest := b;
      while !stop && length >= 6 && length >= HeaderSize(FormOf(buf[src + 1]))
        invariant src0 <= src && src + length == src0 + length0
        invariant stop ==> var drained := Drained(s, old(said), b); drained
        invariant !stop ==> rest == buf[src..src + length] && (buf == home || OneHeader(rest))
        invariant !stop ==> var ready := ReadyFor(stream.state.compressed); ready
        invariant !stop ==> var onTheWay := OnTheWay(cfg, s, old(said), b, stream.state, said, rest); onTheWay
        invariant !stop && length == 0 ==> spill == []
        invariant var conveyed := ConveyAll(events, said, home, if buf == home then src else 0); conveyed
        decreases !stop, length
      {
        HeaderIsThere(rest);
        stop, src, length := ParseTurn(buf, src, length, s, old(said), b, rest, home);
        rest := buf[src..src + length];
      }
      if buf == home {
        StillConvey(events, said, buf, buf[..], buf[..], src, src0 + length0);
      }
      if !stop {
        KeepRest(buf, src, length, s, old(said), b, rest);
      }
    }

    lemma HeaderIsThere(b: bytes)
      requires |b| >= 6 && |b| >= HeaderSize(FormOf(b[1]))
      ensures ParseHeader(b).Some?
    {
    }

    /** An incomplete header is spilled until the next chunk. */
    method KeepRest(buf: array<byte>, src: nat, length: nat, ghost s: State, ghost before: seq<Event>,
                    ghost b: bytes, ghost rest: bytes)
      requires src + length <= buf.Length && rest == buf[src..src + length]
      requires length < 6 || length < HeaderSize(FormOf(buf[src + 1]))
      requires var ready := ReadyFor(stream.state.compressed); ready
      requires var onTheWay := OnTheWay(cfg, s, before, b, stream.state, said, rest); onTheWay
      requires length == 0 ==> spill == []
      modifies `spill, `stream
      ensures var drained := Drained(s, before, b); drained
    {
      if length > 0 {
        spill := buf[src..src + length];
      }
      assert spill == rest;
      Exhausted(s, before, b);
    }

    /** The rest of the frame is in the buffer. */
    method ConsumeLast(buf: array<byte>, src: nat, length: nat,
                       ghost s: State, ghost h: Header, ghost b: bytes, ghost chunk: bytes)
      returns (stop: bool, src': nat, length': nat)
      requires src + length <= buf.Length && chunk == buf[src..src + length] && remainingBytes <= length
      requires stream.state == s && ParseHeader(b) == Some(h)
      requires var amid := Amid(h, Unmask(b[h.Size()..], h.key)); amid
      requires ConveyAll(events, said, buf, src)
      modifies this, buf
      ensures src <= src' && src' + length' == src + length
      ensures var stepped := Stepped(s, old(said), b + chunk, stop, buf[src'..src' + length']); stepped
      ensures var conveyed := ConveyAll(events, said, buf, src'); conveyed
    {
      hide ConveyAll, ParseHeader, Unmask, HeaderError, Stepped;
      ghost var got, n, rest := Unmask(b[h.Size()..], h.key), remainingBytes, chunk[remainingBytes..];
      src', length' := src + remainingBytes, length - remainingBytes;
      assert src' + length' == src + length;
      UnmaskFront(buf, src, length, remainingBytes, chunk);
      assert buf[src'..src' + length'] == rest;
      Joined(b, chunk, h, n);
      assert mask == Rotate(h.key, |b| - h.Size());
      stop := DeliverLast(buf, src, src', s, h, got, got + buf[src..src'], b + chunk, rest);
    }

    method DeliverLast(buf: array<byte>, src: nat, stop0: nat, ghost s: State, ghost h: Header, ghost got: bytes,
                       ghost whole: bytes, ghost c: bytes, ghost rest: bytes) returns (stop: bool)
      requires src + remainingBytes == stop0 <= buf.Length && whole == got + buf[src..stop0]
      requires stream.state == s && ParseHeader(c) == Some(h) && h.Size() + h.length <= |c|
      requires whole == Unmask(c[h.Size()..h.Size() + h.length], h.key) && rest == c[h.Size() + h.length..]
      requires var amid := Amid(h, got); amid
      requires ConveyAll(events, said, buf, stop0)
      modifies this
      ensures var stepped := Stepped(s, old(said), c, stop, rest); stepped
      ensures var conveyed := ConveyAll(events, said, buf, stop0); conveyed
    {
      stop := FinishFrame(buf, src, remainingBytes, lastFin, s, h, got, whole, buf, stop0);
      WholeIsStep(s, old(said), c, h, whole, stop, rest);
    }

    method UnmaskFront(buf: array<byte>, src: nat, length: nat, n: nat, ghost chunk: bytes)
      requires src + length <= buf.Length && chunk == buf[src..src + length] && n <= length
      requires ConveyAll(events, said, buf, src)
      modifies buf
      ensures buf[src..src + n] == Unmask(chunk[..n], mask)
      ensures buf[src + n..src + length] == chunk[n..]
      ensures ConveyAll(events, said, buf, src + n)
    {
      UnmaskLast(buf, src, n, mask, simd);
      StillConvey(events, said, buf, old(buf[..]), buf[..], src, src + n);
      AfterWrite(buf[..], old(buf[..]), src + n, src + n, length - n);
    }

    /** The frame goes on beyond the buffer. */
    method ConsumeMore(buf: array<byte>, src: nat, length: nat,
                       ghost s: State, ghost h: Header, ghost b: bytes, ghost chunk: bytes)
      requires src + length <= buf.Length && chunk == buf[src..src + length] && remainingBytes > length
      requires stream.state == s && ParseHeader(b) == Some(h)
      requires var amid := Amid(h, Unmask(b[h.Size()..], h.key)); amid
      requires ConveyAll(events, said, buf, src)
      modifies this, buf
      ensures var stepped := Stepped(s, old(said), b + chunk, true, []); stepped
      ensures ConveyAll(events, said, buf, src + length)
    {
      hide ConveyAll, Unmask, ParseHeader, Stepped, HeaderError;
      ghost var got := Unmask(b[h.Size()..], h.key);
      UnmaskFront(buf, src, length, length, chunk);
      JoinedPart(b, chunk, h);
      ghost var whole := got + buf[src..src + length];
      assert chunk[..length] == chunk;
      KeepPart(buf, src, length, s, h, got, whole, b + chunk);
    }

    method KeepPart(buf: array<byte>, src: nat, length: nat, ghost s: State, ghost h: Header,
                    ghost got: bytes, ghost whole: bytes, ghost c: bytes)
      requires src + length <= buf.Length && whole == got + buf[src..src + length] && remainingBytes > length
      requires stream.state == s && ParseHeader(c) == Some(h) && |c| - h.Size() == |got| + length
      requires whole == Unmask(c[h.Size()..], h.key)
      requires var amid := Amid(h, got); amid
      requires ConveyAll(events, said, buf, src + length)
      modifies this
      ensures var stepped := Stepped(s, old(said), c, true, []); stepped
      ensures ConveyAll(events, said, buf, src + length)
    {
      hide ConveyAll, Unmask, ParseHeader, Stepped, Conveys;
      remainingBytes := remainingBytes - length;
      var stop := DeliverPart(buf, src, length, remainingBytes, lastFin, s, h, got, whole, buf, src + length);
      Suspend(s, c, h, whole, []);
    }

    method ConsumeContinuation(buf: array<byte>, src: nat, length: nat,
                               ghost s: State, ghost h: Header, ghost b: bytes, ghost chunk: bytes)
      returns (more: bool, src': nat, length': nat)
      requires src + length <= buf.Length && chunk == buf[src..src + length]
      requires stream.state == s && ParseHeader(b) == Some(h)
      requires var amid := Amid(h, Unmask(b[h.Size()..], h.key)); amid
      requires ConveyAll(events, said, buf, src)
      modifies this, buf
      ensures src <= src' && src' + length' == src + length
      ensures var stepped := Stepped(s, old(said), b + chunk, !more, if more then buf[src'..src' + length'] else []);
              stepped
      ensures ConveyAll(events, said, buf, src')
    {
      hide ConveyAll, Stepped, ParseHeader, Unmask, Amid;
      if remainingBytes <= length {
        var stop;
        stop, src', length' := ConsumeLast(buf, src, length, s, h, b, chunk);
        more := !stop;
        if stop {
          RestDoesNotMatter(s, old(said), b + chunk, buf[src'..src' + length']);
        }
      } else {
        more, src', length' := false, src + length, 0;
        ConsumeMore(buf, src, length, s, h, b, chunk);
      }
    }

    lemma RestDoesNotMatter(s: State, before: seq<Event>, b: bytes, rest: bytes)
      requires var stepped := Stepped(s, before, b, true, rest); stepped
      ensures var stepped := Stepped(s, before, b, true, []); stepped
    {
    }

    /** Parses what is spilled and then the chunk at `src0`, in one run. */
    method ConsumeBuffer(buf: array<byte>, src0: nat, length0: nat,
                         ghost s: State, ghost b: bytes, ghost chunk: bytes, ghost home: array<byte>)
      requires |spill| <= src0 && src0 + length0 <= buf.Length && chunk == buf[src0..src0 + length0]
      requires var valid := Valid(); valid
      requires stream == Stream(s, b) && !closing
      requires if buf == home then spill == [] else wantsHead && OneHeader(b + chunk)
      requires ConveyAll(events, said, home, if buf == home then src0 else 0)
      modifies this, buf
      ensures var drained := Drained(s, old(said), b + chunk); drained
      ensures ConveyAll(events, said, home, if buf == home then src0 + length0 else 0)
    {
      if wantsHead {
        ConsumeHead(buf, src0, length0, s, b, chunk, home);
      } else {
        ConsumeRest(buf, src0, length0, s, b, chunk);
      }
    }

    method ConsumeHead(buf: array<byte>, src0: nat, length0: nat,
                       ghost s: State, ghost b: bytes, ghost chunk: bytes, ghost home: array<byte>)
      requires |spill| <= src0 && src0 + length0 <= buf.Length && chunk == buf[src0..src0 + length0]
      requires var valid := Valid(); valid
      requires stream == Stream(s, b) && !closing && wantsHead
      requires if buf == home then spill == [] else OneHeader(b + chunk)
      requires ConveyAll(events, said, home, if buf == home then src0 else 0)
      modifies this, buf
      ensures var drained := Drained(s, old(said), b + chunk); drained
      ensures var conveyed := ConveyAll(events, said, home, if buf == home then src0 + length0 else 0); conveyed
    {
      hide Drain, NextStep, OneHeader, Unmask, HeaderError;
      var src: nat, length: nat := src0, length0;
      if |spill| > 0 {
        src, length := src - |spill|, length + |spill|;
        forall i | 0 <= i < |spill| {
          buf[src + i] := spill[i];
        }
        assert buf[src..src0] == spill && buf[src0..src0 + length0] == chunk;
      }
      assert spill == b;
      assert buf[src..src + length] == b + chunk;
      stream := Stream(s, []);
      ParseNext(buf, src, length, s, b + chunk, home);
    }

    method ConsumeRest(buf: array<byte>, src0: nat, length0: nat, ghost s: State, ghost b: bytes, ghost chunk: bytes)
      requires src0 + length0 <= buf.Length && chunk == buf[src0..src0 + length0]
      requires var valid := Valid(); valid
      requires stream == Stream(s, b) && !closing && !wantsHead
      requires ConveyAll(events, said, buf, src0)
      modifies this, buf
      ensures var drained := Drained(s, old(said), b + chunk); drained
      ensures ConveyAll(events, said, buf, src0 + length0)
    {
      hide Drain, NextStep, Unmask, HeaderError, Stepped, Drained, OnTheWay, Rotate;
      ghost var h := ParseHeader(b).value;
      var more, src, length := ConsumeContinuation(buf, src0, length0, s, h, b, chunk);
      if more {
        ParseOn(buf, src, length, s, old(said), b + chunk);
      } else {
        OnTheWayItself(cfg, s, old(said), b + chunk);
        LastTurn(s, old(said), b + chunk, s, old(said), b + chunk, []);
        StillConvey(events, said, buf, buf[..], buf[..], src, src0 + length0);
      }
    }

    /** A frame is complete, and the turns of the loop go on behind it. */
    method ParseOn(buf: array<byte>, src: nat, length: nat, ghost s: State, ghost before: seq<Event>, ghost b: bytes)
      requires src + length <= buf.Length && !s.closing
      requires var stepped := Stepped(s, before, b, false, buf[src..src + length]); stepped
      requires ConveyAll(events, said, buf, src)
      modifies this, buf
      ensures var drained := Drained(s, before, b); drained
      ensures ConveyAll(events, said, buf, src + length)
    {
      hide Drain, NextStep, Unmask, HeaderError, ParseHeader, OnTheWay, Rotate;
      ghost var now, sofar, rest := stream.state, said, buf[src..src + length];
      ReadyAgain(s, before, b, rest);
      ParseNext(buf, src, length, now, rest, buf);
      OnTheWayItself(cfg, s, before, b);
      OneStepOn(cfg, s, before, b, s, before, b);
      Arrived(s, before, b, now, sofar, rest);
    }

    lemma Arrived(s: State, before: seq<Event>, b: bytes, now: State, sofar: seq<Event>, rest: bytes)
      requires var onTheWay := OnTheWay(cfg, s, before, b, now, sofar, rest); onTheWay
      requires var drained := Drained(now, sofar, rest); drained
      ensures var drained := Drained(s, before, b); drained
    {
    }

    /** Parses a chunk. The events conveyed by the call are those of the reference, octet for octet. */
    method Consume(data: array<byte>)
      requires Valid() && data != headerBuffer
      modifies this, data, headerBuffer
      ensures Valid()
      ensures stream == Feed(cfg, old(stream), old(data[..])).stream
      ensures ConveyAll(events, Feed(cfg, old(stream), old(data[..])).events, data, data.Length)
    {
      ghost var st, chunk := stream, data[..];
      ReleaseEvents();
      if !closing && data.Length > 0 {
        if data.Length > UINT_MAX {
          RefuseChunk(data);
        } else {
          ConsumeChunk(data, st.state, st.pending, chunk);
          DrainedIsFed(st, chunk);
        }
      }
    }

    method ReleaseEvents()
      requires var valid := Valid(); valid
      modifies `events, `said, `failureCode
      ensures var valid := Valid(); valid
      ensures events == [] && said == []
    {
      hide ParseHeader, Unmask, HeaderError, Sound, Rotate;
      events, said := [], [];
      failureCode := 1002;
    }

    // ----- sending

    /** `deflated` is the compressor's answer, should it be asked. */
    method CreateFrame(data: bytes, op: nat, compress: bool, deflated: Option<bytes>) returns (frame: Option<bytes>)
      requires Valid() && |data| < 0x8000_0000_0000_0000
      requires deflated.Some? ==> |deflated.value| < 0x8000_0000_0000_0000
      ensures var said := DataFrameFor(cfg, stream.state, op, data, compress, deflated);
              if said.None? then frame == None
              else frame == Some(ServerFrame(op, said.value.payload, said.value.compressed))
      ensures frame.Some? <==>
                && !closing && !closeSent && (op == 1 || op == 2) && (op == 1 ==> Utf8.Text(data))
                && (compress && cfg.deflate ==> deflated.Some?)
      ensures frame.Some? ==>
                var compressed := compress && cfg.deflate;
                ReadServerFrame(frame.value) == Some(Received(true, compressed, op, if compressed then deflated.value else data))
    {
      hide ReadServerFrame;
      if closing || closeSent || (op != TEXT && op != BINARY) {
        return None;
      }
      if op == TEXT {
        var valid := Utf8.IsValidUtf8(data, simd);
        if !valid {
          return None;
        }
      }
      if compress && compressionStatus != DISABLED {
        if deflated.None? {
          return None;
        }
        ServerFrameIsRead(op, deflated.value, true);
        var output := FormatFrame(op, deflated.value, true);
        return Some(output);
      }
      ServerFrameIsRead(op, data, false);
      var output := FormatFrame(op, data, false);
      return Some(output);
    }

    /** Starts the closing handshake; possible once, at any moment, even inside a frame being received. */
    method CreateCloseFrame(code: nat, message: bytes) returns (frame: Option<bytes>)
      requires var valid := Valid(); valid
      requires code < 0x1_0000
      modifies `closeSent, `stream
      ensures var valid := Valid(); valid
      ensures var reply := Answer(cfg, old(stream), Call.CreateCloseFrame(code, message));
              stream == reply.stream && frame.Some? == (reply.outputs != [])
      ensures frame.Some? ==> frame.value == WireFrame(SendClose(code, message))
    {
      assert closing == stream.state.closing && closeSent == stream.state.closeSent;
      if closing || closeSent {
        return None;
      }
      var output := FormatClose(code, message);
      BeginClosing();
      return Some(output);
    }

    method BeginClosing()
      requires Valid() && !closing
      modifies `closeSent, `stream
      ensures var valid := Valid(); valid
      ensures stream == old(stream).(state := old(stream).state.(closeSent := true))
    {
      hide Unmask, Rotate;
      if !wantsHead {
        DroppedDataIsAccepted(cfg, stream.state, ParseHeader(stream.pending).value);
      }
      closeSent := true;
      stream := stream.(state := stream.state.(closeSent := true));
    }

    lemma DrainedIsFed(st: Stream, chunk: bytes)
      requires !st.state.closing && 0 < |chunk| <= UINT_MAX
      requires var drained := Drained(st.state, [], st.pending + chunk); drained
      ensures stream == Feed(cfg, st, chunk).stream && said == Feed(cfg, st, chunk).events
      ensures var valid := Valid(); valid
    {
    }

    method RefuseChunk(data: array<byte>)
      requires var valid := Valid(); valid
      requires !closing && events == [] && said == []
      modifies this
      ensures var valid := Valid(); valid
      ensures var o := Failed(old(stream.state), 1009); stream == Stream(o.state, []) && said == o.events
      ensures ConveyAll(events, said, data, data.Length)
    {
      failureCode := 1009;
      ghost var s := stream.state;
      stream := Stream(s, []);
      ForceClose(s, data, 0);
      StillConvey(events, said, data, data[..], data[..], 0, data.Length);
    }

    method ConsumeChunk(data: array<byte>, ghost s: State, ghost b: bytes, ghost chunk: bytes)
      requires var valid := Valid(); valid
      requires data != headerBuffer && chunk == data[..] && 0 < data.Length
      requires stream == Stream(s, b) && !closing && events == [] && said == []
      modifies this, data, headerBuffer
      ensures var drained := Drained(s, [], b + chunk); drained
      ensures ConveyAll(events, said, data, data.Length)
    {
      if |spill| > 0 {
        ConsumeSplitHeader(data, s, b, chunk);
      } else {
        ConsumeBuffer(data, 0, data.Length, s, b, chunk, data);
      }
    }

    /** The header that the last chunk left incomplete is put together in a buffer of its own. */
    method ConsumeSplitHeader(data: array<byte>, ghost s: State, ghost b: bytes, ghost chunk: bytes)
      requires var valid := Valid(); valid
      requires data != headerBuffer && chunk == data[..] && 0 < data.Length
      requires stream == Stream(s, b) && !closing && |spill| > 0 && events == [] && said == []
      modifies this, data, headerBuffer
      ensures var drained := Drained(s, [], b + chunk); drained
      ensures ConveyAll(events, said, data, data.Length)
    {
      SpillIsShort();
      var marker := if |spill| >= 2 then spill[1] else data[0];
      var headerLength := HeaderSize(FormOf(marker));
      var copied := if data.Length <= headerLength - |spill| then data.Length else headerLength - |spill|;
      ghost var x, second := b + chunk[..copied], chunk[copied..];
      assert b + chunk == x + second;
      ConsumeHeader(data, copied, marker, s, b, x);
      if !closing && copied < data.Length {
        ConsumeAfter(data, copied, s, x, second);
      } else {
        NothingLost(s, x, second);
        StillConvey(events, said, data, data[..], data[..], 0, data.Length);
      }
    }

    method ConsumeHeader(data: array<byte>, copied: nat, marker: byte, ghost s: State, ghost b: bytes, ghost x: bytes)
      requires var valid := Valid(); valid
      requires data != headerBuffer && copied <= data.Length && x == b + data[..copied]
      requires stream == Stream(s, b) && !closing && wantsHead && events == [] && said == []
      requires spill == b && 0 < |b| && |b| + copied <= HeaderSize(FormOf(marker)) && copied > 0 && marker == x[1]
      modifies this, headerBuffer
      ensures var drained := Drained(s, [], x); drained
      ensures var conveyed := ConveyAll(events, said, data, 0); conveyed
    {
      ghost var first := data[..copied];
      FillHeaderBuffer(data, copied);
      HeaderFits(x, marker);
      ConsumeBuffer(headerBuffer, 13, copied, s, b, first, data);
    }

    method FillHeaderBuffer(data: array<byte>, copied: nat)
      requires data != headerBuffer && copied <= data.Length && 13 + copied <= headerBuffer.Length
      modifies headerBuffer
      ensures headerBuffer[13..13 + copied] == data[..copied]
    {
      forall i | 0 <= i < copied {
        headerBuffer[13 + i] := data[i];
      }
    }

    /** What follows a header that was put together is parsed in the chunk itself. */
    method ConsumeAfter(data: array<byte>, copied: nat, ghost s: State, ghost x: bytes, ghost second: bytes)
      requires copied < data.Length && second == data[copied..] && data != headerBuffer
      requires var drained := Drained(s, [], x); drained
      requires !closing && ParseHeader(x).Some? && |x| == ParseHeader(x).value.Size()
      requires ConveyAll(events, said, data, 0)
      modifies this, data
      ensures var drained := Drained(s, [], x + second); drained
      ensures var conveyed := ConveyAll(events, said, data, data.Length); conveyed
    {
      hide Drain, ParseHeader, Unmask, NextStep, OneHeader, ConveyAllIn, HeaderError;
      ghost var r, sofar := Drain(cfg, s, x), said;
      assert sofar == r.events;
      HeaderSpent(s, x);
      StillConvey(events, said, data, data[..], data[..], 0, copied);
      assert copied + (data.Length - copied) == data.Length;
      ConsumeBuffer(data, copied, data.Length - copied, r.stream.state, r.stream.pending, second, data);
      Together(s, x, second, sofar);
    }

    lemma Together(s: State, x: bytes, y: bytes, sofar: seq<Event>)
      requires sofar == Drain(cfg, s, x).events
      requires var r := Drain(cfg, s, x);
               var drained := Drained(r.stream.state, sofar, r.stream.pending + y); drained
      ensures var drained := Drained(s, [], x + y); drained
    {
      hide Drain, Valid;
      DrainParts(cfg, s, x, y);
    }

    lemma NothingLost(s: State, x: bytes, second: bytes)
      requires var drained := Drained(s, [], x); drained
      requires closing || second == []
      ensures var drained := Drained(s, [], x + second); drained
    {
      if second == [] {
        assert x + second == x;
      } else {
        DrainParts(cfg, s, x, second);
        assert Drain(cfg, s, x).events + [] == Drain(cfg, s, x).events;
      }
    }

    lemma HeaderSpent(s: State, b: bytes)
      requires var drained := Drained(s, [], b); drained
      requires !closing && ParseHeader(b).Some? && |b| == ParseHeader(b).value.Size()
      ensures spill == []
    {
      AfterHeader(cfg, s, b);
    }

    /** The payload octets received of a frame still under way. */
    ghost function Got(): bytes
      reads this
    {
      if wantsHead || ParseHeader(stream.pending).None? then []
      else var h := ParseHeader(stream.pending).value; Unmask(stream.pending[h.Size()..], h.key)
    }

    /**
     Reassembly: the buffer is the data of the message so far, then exactly the part of a control frame
     that has arrived, control octets not counting toward the limit. After a local Close, when data is
     dropped, the buffer still ends with that part and what comes before it still fits.
     */
    lemma BufferIsMessageThenTip()
      requires Valid() && !closing
      ensures controlTipLength <= 125 && controlTipLength <= |fragmentBuffer|
      ensures !TooLong(cfg, |fragmentBuffer| - controlTipLength)
      ensures controlTipLength > 0 ==> fragmentBuffer[|fragmentBuffer| - controlTipLength..] == Got()
      ensures !closeSent ==> fragmentBuffer == stream.state.data + Got()
    {
      hide ParseHeader, Unmask, HeaderError, Rotate;
      if wantsHead {
        assert stream.state.data + [] == stream.state.data;
      } else {
        BufferInside(stream.state, ParseHeader(stream.pending).value, Got());
      }
    }

    lemma BufferInside(s: State, h: Header, got: bytes)
      requires Delivering(s, h, got) && Sound(cfg, s) && s.closeSent == closeSent
      requires |got| < h.length && HeaderError(cfg, s, h).None?
      ensures controlTipLength <= 125 && controlTipLength <= |fragmentBuffer|
      ensures !TooLong(cfg, |fragmentBuffer| - controlTipLength)
      ensures controlTipLength > 0 ==> fragmentBuffer[|fragmentBuffer| - controlTipLength..] == got
      ensures !closeSent ==> fragmentBuffer == s.data + got
    {
      if !IsData(h.op) {
        var tip := |fragmentBuffer| - |got|;
        assert fragmentBuffer == fragmentBuffer[..tip] + fragmentBuffer[tip..];
      }
    }

    /** The opcode stack, the mark of a fragmented message and the spill always tell the same story. */
    lemma ParserInvariant()
      requires Valid() && !closing
      ensures wantsHead ==> opStack == (if fragmentedMessage then 0 else -1) && |spill| <= 13
      ensures !wantsHead ==> spill == [] && 0 < remainingBytes <= UINT_MAX && 0 <= opStack <= 1
    {
      if wantsHead && spill != [] {
        SpillIsShort();
      }
    }

    /** A spilled header still lacks its last octet. */
    lemma SpillIsShort()
      requires Valid() && !closing && |spill| > 0
      ensures wantsHead && spill == stream.pending && ParseHeader(spill).None? && |spill| <= 13
      ensures |spill| >= 2 ==> |spill| < HeaderSize(FormOf(spill[1]))
    {
    }

    /** Popping, if `fin`, leaves the opcode stack of a session in state `o` between frames. */
    ghost predicate PoppedStack(fin: bool, o: State)
      reads this
    {
      && |opCode| == 2
      && fragmentedMessage == o.open
      && (if fin then opStack - 1 else opStack) == (if o.open then 0 else -1)
      && (o.open ==> opCode[0] == o.op)
    }

    /** What popping the opcode stack at the end of a message or control frame leaves. */
    lemma StackAfter(s: State, h: Header, got: bytes, payload: bytes)
      requires |got| <= |payload| == h.length && Deliverable(s, h, got, |payload| - |got|, 0)
      ensures 0 <= opStack < 2 && |opCode| == 2
      ensures var o := Apply(cfg, s, Frame(h, payload)).state;
              Sound(cfg, o) && (!o.closing ==> PoppedStack(h.fin, o))
    {
      StateAfter(cfg, s, h, payload);
    }
  }

  lemma HeaderFacts(b: bytes, h: Header)
    requires ParseHeader(b) == Some(h)
    ensures 6 <= h.Size() <= |b| && h.key == b[h.Size() - 4..h.Size()]
    ensures h.fin == IsFin(b[0]) && h.rsv1 == Rsv1(b[0]) && h.rsv23 == Rsv23(b[0]) && h.op == GetOpCode(b[0])
    ensures h.masked == IsMasked(b[1]) && h.form == FormOf(b[1])
  {
  }

  lemma ParsedStep(cfg: Config, s: State, h: Header, b: bytes)
    requires ParseHeader(b) == Some(h)
    ensures NextStep(cfg, s, b) ==
              if HeaderError(cfg, s, h).Some? then Done(Failed(s, HeaderError(cfg, s, h).value), h.Size())
              else if |b| < h.Size() + h.length then More
              else Done(Apply(cfg, s, Frame(h, Unmask(b[h.Size()..h.Size() + h.length], h.key))), h.Size() + h.length)
  {
  }

  /** Where the parts of a whole frame are, before and after its payload was unmasked. */
  lemma WholeFrame(before: bytes, now: bytes, src: nat, length: nat, header: nat, payload: nat)
    requires |now| == |before| && src + length <= |now| && 6 <= header && header + payload <= length
    requires now[..src + header - 4] == before[..src + header - 4]
    requires now[src + header - 4 + payload..] == before[src + header - 4 + payload..]
    ensures var b, size := before[src..src + length], header + payload;
            && b[header..size] == before[src + header..src + size]
            && b[header - 4..header] == before[src + header - 4..src + header]
            && b[size..] == now[src + size..src + length]
            && b[0] == now[src]
    ensures now[..src] == before[..src] && now[src + length..] == before[src + length..]
  {
    var dst, size := src + header - 4, header + payload;
    SliceOfSlice(before, src, src + length, header, size);
    SliceOfSlice(before, src, src + length, header - 4, header);
    DropOfSlice(before, src, src + length, size);
    AfterWrite(now, before, dst + payload, src + size, length - size);
    AfterWrite(now, before, dst + payload, src + length, |now| - src - length);
    BeforeWrite(now, before, dst, 0, src);
    assert now[src] == now[..dst][src] == before[..dst][src];
  }

  /** Where the parts of the start of a frame are, before and after its payload was unmasked. */
  lemma FrameStart(before: bytes, now: bytes, src: nat, length: nat, header: nat)
    requires |now| == |before| && src + length <= |now| && 6 <= header <= length
    requires now[..src] == before[..src] && now[src + length - header..] == before[src + length - header..]
    ensures var b := before[src..src + length];
            b[header..] == before[src + header..src + length] && b[header - 4..header] == before[src + header - 4..src + header]
    ensures now[src + length..] == before[src + length..]
  {
    DropOfSlice(before, src, src + length, header);
    SliceOfSlice(before, src, src + length, header - 4, header);
    AfterWrite(now, before, src + length - header, src + length, |now| - src - length);
  }

  lemma PassedLength(cfg: Config, s: State, h: Header)
    requires HeaderPassed(cfg, s, h)
    ensures h.length <= UINT_MAX
  {
  }

  lemma PairBound(b: bytes)
    requires |b| == 2
    ensures FromBigEndian(b) < 0x1_0000
  {
    assert b[..1][..0] == [];
    assert FromBigEndian(b[..1]) == b[0];
  }

  /** `b` ends with the header at its front, or before. */
  predicate OneHeader(b: bytes) {
    ParseHeader(b).Some? ==> |b| <= ParseHeader(b).value.Size()
  }

  lemma OneHeaderLeft(cfg: Config, s: State, b: bytes)
    requires NextStep(cfg, s, b).Done?
    ensures OneHeader(b) ==> OneHeader(b[NextStep(cfg, s, b).size..])
  {
  }

  /** Draining `b` comes to what was done so far, and draining `rest` now. */
  ghost predicate OnTheWay(cfg: Config, s: State, before: seq<Event>, b: bytes, now: State, sofar: seq<Event>, rest: bytes)
  {
    var r, q := Drain(cfg, s, b), Drain(cfg, now, rest);
    r.stream == q.stream && before + r.events == sofar + q.events
  }

  lemma OnTheWayItself(cfg: Config, s: State, before: seq<Event>, b: bytes)
    ensures OnTheWay(cfg, s, before, b, s, before, b)
  {
  }

  lemma OneStepOn(cfg: Config, s: State, before: seq<Event>, b: bytes, now: State, sofar: seq<Event>, rest: bytes)
    requires OnTheWay(cfg, s, before, b, now, sofar, rest) && !now.closing && NextStep(cfg, now, rest).Done?
    ensures var Done(o, size) := NextStep(cfg, now, rest);
            OnTheWay(cfg, s, before, b, o.state, sofar + o.events, rest[size..])
  {
    var Done(o, size) := NextStep(cfg, now, rest);
    DrainStep(cfg, now, rest, o, size);
    var q := Drain(cfg, o.state, rest[size..]);
    assert sofar + (o.events + q.events) == (sofar + o.events) + q.events;
  }

  /** The payload of a frame that starts in `b` and whose last `n` octets are at the front of `chunk`. */
  lemma Joined(b: bytes, chunk: bytes, h: Header, n: nat)
    requires ParseHeader(b) == Some(h) && n <= |chunk| && |b| - h.Size() + n == h.length
    ensures ParseHeader(b + chunk) == Some(h) && h.Size() + h.length <= |b + chunk|
    ensures Unmask((b + chunk)[h.Size()..h.Size() + h.length], h.key)
         == Unmask(b[h.Size()..], h.key) + Unmask(chunk[..n], Rotate(h.key, |b| - h.Size()))
    ensures (b + chunk)[h.Size() + h.length..] == chunk[n..]
  {
    hide Unmask, ParseHeader, Rotate;
    ParseHeaderPrefix(b, chunk);
    SliceOfBoth(b, chunk, h.Size(), n);
    DropOfSecond(b, chunk, n);
    UnmaskSplit(b[h.Size()..], chunk[..n], h.key);
  }

  lemma JoinedPart(b: bytes, chunk: bytes, h: Header)
    requires ParseHeader(b) == Some(h)
    ensures ParseHeader(b + chunk) == Some(h)
    ensures Unmask((b + chunk)[h.Size()..], h.key) == Unmask(b[h.Size()..], h.key) + Unmask(chunk, Rotate(h.key, |b| - h.Size()))
  {
    hide Unmask, ParseHeader, Rotate;
    ParseHeaderPrefix(b, chunk);
    DropOfFirst(b, chunk, h.Size());
    UnmaskSplit(b[h.Size()..], chunk, h.key);
  }

  /** Octets that end with a header leave nothing pending, or all of them. */
  lemma AfterHeader(cfg: Config, s: State, b: bytes)
    requires ParseHeader(b).Some? && |b| == ParseHeader(b).value.Size()
    ensures Drain(cfg, s, b).stream.pending == [] || Drain(cfg, s, b).stream.pending == b
  {
    if !s.closing && NextStep(cfg, s, b).Done? {
      var Done(o, size) := NextStep(cfg, s, b);
      DrainStep(cfg, s, b, o, size);
      assert b[size..] == [];
      assert Drain(cfg, o.state, []).stream.pending == [];
    }
  }

  lemma HeaderFits(b: bytes, marker: byte)
    requires |b| >= 2 && b[1] == marker && |b| <= HeaderSize(FormOf(marker))
    ensures OneHeader(b)
  {
  }

  /** A frame accepted before a Close frame was sent would be accepted after it. */
  lemma DroppedDataIsAccepted(cfg: Config, s: State, h: Header)
    requires HeaderError(cfg, s, h).None?
    ensures HeaderError(cfg, s.(closeSent := true), h).None?
  {
  }

  lemma RefusalIsTooLong(cfg: Config, s: State, h: Header)
    requires HeaderPassed(cfg, s, h)
    ensures HeaderError(cfg, s, h).Some? ==> HeaderError(cfg, s, h).value == 1009
  {
  }

  /** The message in progress after a frame that was not refused. */
  lemma StateAfter(cfg: Config, s: State, h: Header, payload: bytes)
    requires Sound(cfg, s) && HeaderPassed(cfg, s, h) && |payload| == h.length && !s.closing
    ensures var o := Apply(cfg, s, Frame(h, payload));
            && Sound(cfg, o.state)
            && (!o.state.closing ==>
                  if IsData(h.op) then o.state.open == !h.fin && (!h.fin ==> o.state.op == EffectiveOp(s, h))
                  else o.state == s)
  {
  }
}
