/**
 What a server session must make of a client's octet stream, said without
 buffers or chunks: frames are read whole (section 5.2 of RFC 6455), then
 fragments are joined (section 5.4) and control frames obeyed (section 5.5).
 */
module Reference {
  import opened Octets
  import opened Masking
  import opened Framing
  import opened Closing
  import Utf8

  // ----- permessage-deflate

  /** How a run of the inflater ended. */
  datatype InflateEnd = Finished | Corrupt | Broken

  /** A run of the inflater over one message: the pieces it produced, and its end. */
  datatype InflateRun = InflateRun(pieces: seq<bytes>, end: InflateEnd)

  datatype InflateResult = Inflated(data: bytes) | InvalidData | PayloadTooLarge | InternalError

  function InflateOutcome(run: InflateRun, maxPayload: nat): InflateResult {
    var data := Concat(run.pieces);
    if maxPayload != 0 && |data| > maxPayload then PayloadTooLarge
    else match run.end
      case Finished => Inflated(data)
      case Corrupt => InvalidData
      case Broken => InternalError
  }

  /**
   A negotiated session. `maxPayload` 0 means no limit. `inflate` stands for zlib:
   a function of the messages inflated before in the same context and of the next one.
   */
  datatype Config = Config(
    maxPayload: nat, deflate: bool, contextTakeover: bool,
    inflate: (seq<bytes>, bytes) -> InflateRun)

  /** The next run of the inflater, which has seen `history` if contexts are taken over. */
  function Inflate(cfg: Config, history: seq<bytes>, data: bytes): InflateRun {
    cfg.inflate(if cfg.contextTakeover then history else [], data)
  }

  // ----- sessions between frames

  /**
   `open`, `op`, `data`: the message whose final fragment is still to come, if any.
   `compressed`: a compressed message began and was not delivered yet.
   */
  datatype State = State(
    open: bool, op: nat, data: bytes,
    compressed: bool, history: seq<bytes>,
    closeSent: bool, closing: bool)

  const START := State(false, CONTINUATION, [], false, [], false, false)

  /** A message or the end of the connection is reported; a Pong or a Close frame is to be written. */
  datatype Event =
    | Message(op: nat, payload: bytes)
    | SendPong(payload: bytes)
    | SendClose(code: nat, reason: bytes)
    | Closed(code: nat, reason: bytes)

  /** The frame that goes on the wire for `SendPong` and `SendClose`; a Close reason is cut to what fits. */
  function WireFrame(e: Event): bytes
    requires (e.SendPong? && |e.payload| < 126) || e.SendClose?
  {
    match e
    case SendPong(payload) => ServerFrame(PONG, payload, false)
    case SendClose(code, reason) => ServerFrame(CLOSE, CloseBody(code, CutReason(reason)), false)
  }

  function CutReason(reason: bytes): bytes {
    if |reason| <= MAX_REASON then reason else reason[..MAX_REASON]
  }

  /** A message in progress has a data opcode and fits; only a negotiated session meets compressed ones. */
  predicate Sound(cfg: Config, s: State) {
    (s.open ==> s.op == TEXT || s.op == BINARY) && (s.compressed ==> cfg.deflate) && !TooLong(cfg, |s.data|)
  }

  /** A session after a step, and the events the step gave rise to. */
  datatype Outcome = Outcome(state: State, events: seq<Event>)

  function Failed(s: State, code: nat): Outcome {
    Outcome(s.(closing := true, closeSent := true),
            (if s.closeSent then [] else [SendClose(code, [])]) + [Closed(ABNORMAL, [])])
  }

  predicate IsData(op: nat) { op <= BINARY }

  predicate IsControl(op: nat) { op == CLOSE || op == PING || op == PONG }

  predicate TooLong(cfg: Config, n: nat) {
    (cfg.maxPayload != 0 && n > cfg.maxPayload) || n > UINT_MAX
  }

  /** Faults of a header on its own, given what was negotiated. */
  predicate MalformedHeader(cfg: Config, s: State, h: Header) {
    || !h.masked || h.rsv23 || !(IsData(h.op) || IsControl(h.op))
    || (IsControl(h.op) && (!h.fin || h.form != Short))
    || (h.rsv1 && (h.op == CONTINUATION || IsControl(h.op) || !cfg.deflate || s.compressed))
    || !h.Minimal()
  }

  /** Why the header of the next frame is refused, as a close code. */
  function HeaderError(cfg: Config, s: State, h: Header): Option<nat> {
    if MalformedHeader(cfg, s, h) then Some(1002)
    else if IsControl(h.op) then None
    else if (h.op == CONTINUATION) != s.open then Some(1002)
    else if TooLong(cfg, h.length) || MessageTooLong(cfg, s, h) then Some(1009)
    else None
  }

  /** The whole message, with this frame, would pass the limit; dropped data does not count. */
  predicate MessageTooLong(cfg: Config, s: State, h: Header) {
    !s.closeSent && TooLong(cfg, |s.data| + h.length)
  }

  function MessageComplete(cfg: Config, s: State, whole: bytes): Outcome {
    if s.compressed then
      var s' := s.(compressed := false, history := s.history + [whole]);
      match InflateOutcome(Inflate(cfg, s.history, whole), cfg.maxPayload)
      case Inflated(data) => TextChecked(s', data)
      case InvalidData => Failed(s', 1007)
      case PayloadTooLarge => Failed(s', 1009)
      case InternalError => Failed(s', 1011)
    else TextChecked(s, whole)
  }

  function TextChecked(s: State, payload: bytes): Outcome {
    if s.op == TEXT && !Utf8.Text(payload) then Failed(s, 1007)
    else Outcome(s, [Message(s.op, payload)])
  }

  /** The effect of a data frame with an acceptable header. */
  function DeliverData(cfg: Config, s: State, h: Header, payload: bytes): Outcome {
    var s' := s.(open := !h.fin, op := if h.op == CONTINUATION then s.op else h.op,
                 compressed := s.compressed || h.rsv1);
    if s.closeSent then Outcome(s', [])
    else if !h.fin then Outcome(s'.(data := s.data + payload), [])
    else MessageComplete(cfg, s'.(data := []), s.data + payload)
  }

  /** The effect of a control frame with an acceptable header. */
  function DeliverControl(s: State, op: nat, payload: bytes): Outcome
    requires |payload| < 126
  {
    if op == CLOSE then
      var close := ParseClosePayload(payload);
      if close.code == ABNORMAL then Failed(s, 1002)
      else Outcome(s.(closing := true, closeSent := true),
                   (if s.closeSent then [] else [SendClose(close.code, close.reason)])
                   + [Closed(close.code, close.reason)])
    else if op == PING then Outcome(s, [SendPong(payload)])
    else Outcome(s, [])
  }

  /** One frame off the wire: its header and its unmasked payload. */
  datatype Frame = Frame(head: Header, payload: bytes)

  function Apply(cfg: Config, s: State, f: Frame): Outcome
    requires |f.payload| == f.head.length
  {
    match HeaderError(cfg, s, f.head)
    case Some(code) => Failed(s, code)
    case None =>
      if IsData(f.head.op) then DeliverData(cfg, s, f.head, f.payload)
      else DeliverControl(s, f.head.op, f.payload)
  }

  // ----- streams

  /** What the front of a stream amounts to: nothing yet, or a step over its first `size` octets. */
  datatype Step = More | Done(outcome: Outcome, size: nat)

  function NextStep(cfg: Config, s: State, b: bytes): (r: Step)
    ensures r.Done? ==> 0 < r.size <= |b|
  {
    match ParseHeader(b)
    case None => More
    case Some(h) =>
      match HeaderError(cfg, s, h)
      case Some(code) => Done(Failed(s, code), h.Size())
      case None =>
        var size := h.Size() + h.length;
        if |b| < size then More
        else Done(Apply(cfg, s, Frame(h, Unmask(b[h.Size()..size], h.key))), size)
  }

  /** A session together with the octets that are not yet a whole frame. */
  datatype Stream = Stream(state: State, pending: bytes)

  datatype Run = Run(stream: Stream, events: seq<Event>)

  /** Everything that `b` decides; a closed session ignores its input. */
  function Drain(cfg: Config, s: State, b: bytes): Run
    decreases |b|
  {
    if s.closing then Run(Stream(s, []), [])
    else match NextStep(cfg, s, b)
      case More => Run(Stream(s, b), [])
      case Done(o, size) =>
        var r := Drain(cfg, o.state, b[size..]);
        r.(events := o.events + r.events)
  }

  /** One call with one chunk. Longer chunks than an `unsigned int` can count are refused whole. */
  function Feed(cfg: Config, st: Stream, chunk: bytes): Run {
    if st.state.closing || chunk == [] then Run(st, [])
    else if |chunk| > UINT_MAX then
      var o := Failed(st.state, 1009);
      Run(Stream(o.state, []), o.events)
    else Drain(cfg, st.state, st.pending + chunk)
  }

  /** Successive calls, one for each chunk. */
  function FeedAll(cfg: Config, st: Stream, chunks: seq<bytes>): Run
    decreases |chunks|
  {
    if chunks == [] then Run(st, [])
    else
      var r := Feed(cfg, st, chunks[0]);
      var q := FeedAll(cfg, r.stream, chunks[1..]);
      q.(events := r.events + q.events)
  }

  // ----- sending

  /** What the application does to a session, and what the compressor answers if it is asked. */
  datatype Call =
    | Receive(chunk: bytes)
    | CreateFrame(op: nat, payload: bytes, compress: bool, deflated: Option<bytes>)
    | CreateCloseFrame(code: nat, reason: bytes)

  /** What comes out of a session: an event of the receive path, or a data frame. */
  datatype Output = Said(event: Event) | DataFrame(op: nat, payload: bytes, compressed: bool)

  datatype Reply = Reply(stream: Stream, outputs: seq<Output>)

  function AllSaid(events: seq<Event>): (r: seq<Output>)
    ensures |r| == |events| && forall i | 0 <= i < |r| :: r[i] == Said(events[i])
  {
    seq(|events|, i requires 0 <= i < |events| => Said(events[i]))
  }

  function DataFrameFor(cfg: Config, s: State, op: nat, payload: bytes, compress: bool, deflated: Option<bytes>): Option<Output> {
    if s.closing || s.closeSent || (op != TEXT && op != BINARY) || (op == TEXT && !Utf8.Text(payload)) then None
    else if compress && cfg.deflate then
      match deflated case None => None case Some(data) => Some(DataFrame(op, data, true))
    else Some(DataFrame(op, payload, false))
  }

  function Answer(cfg: Config, st: Stream, call: Call): Reply {
    match call
    case Receive(chunk) =>
      var r := Feed(cfg, st, chunk);
      Reply(r.stream, AllSaid(r.events))
    case CreateFrame(op, payload, compress, deflated) =>
      (match DataFrameFor(cfg, st.state, op, payload, compress, deflated)
       case None => Reply(st, [])
       case Some(frame) => Reply(st, [frame]))
    case CreateCloseFrame(code, reason) =>
      if st.state.closing || st.state.closeSent then Reply(st, [])
      else Reply(st.(state := st.state.(closeSent := true)), [Said(SendClose(code, reason))])
  }

  /** A session's life: any calls in any order. */
  function AnswerAll(cfg: Config, st: Stream, calls: seq<Call>): Reply
    decreases |calls|
  {
    if calls == [] then Reply(st, [])
    else
      var r := Answer(cfg, st, calls[0]);
      var q := AnswerAll(cfg, r.stream, calls[1..]);
      q.(outputs := r.outputs + q.outputs)
  }
}
