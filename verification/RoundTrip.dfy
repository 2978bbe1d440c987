/**
 What a well-behaved client sends is what the application gets: messages survive
 masking, fragmentation and interleaved control frames. And what becomes of such
 traffic once the server has started to close.
 */
module RoundTrip {
  import opened Octets
  import opened Masking
  import opened Framing
  import opened Closing
  import opened Reference
  import opened ChunkIndependence
  import Utf8

  function Plain(f: ClientFrame): Frame {
    Frame(f.Head(), f.payload)
  }

  predicate AllValid(fs: seq<ClientFrame>) {
    forall f | f in fs :: f.Valid()
  }

  function EncodeAll(fs: seq<ClientFrame>): bytes
    requires AllValid(fs)
  {
    if fs == [] then []
    else
      assert fs[0] in fs;
      Encode(fs[0]) + EncodeAll(fs[1..])
  }

  /**
   A frame that the session accepts is, octet for octet, what a client writes for its contents: there is
   no second form, of the length or of anything else.
   */
  lemma AcceptedFrameIsEncoding(cfg: Config, s: State, b: bytes, h: Header)
    requires ParseHeader(b) == Some(h) && HeaderError(cfg, s, h).None? && h.Size() + h.length <= |b|
    ensures var size := h.Size() + h.length;
            var f := ClientFrame(h.fin, h.rsv1, h.op, h.key, Unmask(b[h.Size()..size], h.key));
            f.Valid() && f.Head() == h && b[..size] == Encode(f)
  {
    hide ParseHeader, Unmask;
    var size, masked := h.Size() + h.length, b[h.Size()..h.Size() + h.length];
    HeaderIsCanonical(b, h);
    UnmaskInvolution(masked, h.key);
    SlicesJoin(b, 0, h.Size(), size);
    assert b[..size] == b[0..size] && b[..h.Size()] == b[0..h.Size()];
  }

  function PlainAll(fs: seq<ClientFrame>): seq<Frame> {
    if fs == [] then [] else [Plain(fs[0])] + PlainAll(fs[1..])
  }

  lemma Associative<T>(a: seq<T>, b: seq<T>, c: seq<T>)
    ensures (a + b) + c == a + (b + c)
  {
  }

  lemma {:induction false} EncodedFrame(f: ClientFrame, y: bytes)
    requires f.Valid()
    ensures var b, h := Encode(f) + y, f.Head();
            && ParseHeader(b) == Some(h) && |Encode(f)| == h.Size() + h.length <= |b|
            && Unmask(b[h.Size()..h.Size() + h.length], h.key) == f.payload
            && b[h.Size() + h.length..] == y
  {
    HeaderRoundTrip(f, y);
    UnmaskInvolution(f.payload, f.key);
  }

  lemma EncodeFirst(fs: seq<ClientFrame>, y: bytes)
    requires fs != [] && AllValid(fs)
    ensures fs[0].Valid() && AllValid(fs[1..])
    ensures EncodeAll(fs) + y == Encode(fs[0]) + (EncodeAll(fs[1..]) + y)
  {
    assert fs[0] in fs && forall f | f in fs[1..] :: f in fs;
  }

  /** The splitter inverts the encoder: masks, length forms and boundaries are all recovered. */
  lemma {:induction false} SplitInvertsEncode(fs: seq<ClientFrame>, y: bytes)
    requires AllValid(fs)
    ensures Split(EncodeAll(fs) + y) == (PlainAll(fs) + Split(y).0, Split(y).1)
    decreases |fs|
  {
    if fs == [] {
      assert EncodeAll(fs) + y == y;
      assert PlainAll(fs) + Split(y).0 == Split(y).0;
    } else {
      EncodeFirst(fs, y);
      SplitFirst(fs[0], EncodeAll(fs[1..]) + y);
      SplitInvertsEncode(fs[1..], y);
      Associative([Plain(fs[0])], PlainAll(fs[1..]), Split(y).0);
    }
  }

  lemma SplitFirst(f: ClientFrame, tail: bytes)
    requires f.Valid()
    ensures Split(Encode(f) + tail) == ([Plain(f)] + Split(tail).0, Split(tail).1)
  {
    EncodedFrame(f, tail);
  }

  /** An accepted frame is applied, and the rest drained. */
  lemma {:induction false} DrainEncoded(cfg: Config, s: State, fs: seq<ClientFrame>, y: bytes)
    requires fs != [] && AllValid(fs) && !s.closing && HeaderError(cfg, s, fs[0].Head()).None?
    ensures AllValid(fs[1..])
    ensures var o := Apply(cfg, s, Plain(fs[0]));
            Drain(cfg, s, EncodeAll(fs) + y) == Then(o, Drain(cfg, o.state, EncodeAll(fs[1..]) + y))
  {
    EncodeFirst(fs, y);
    var f, tail := fs[0], EncodeAll(fs[1..]) + y;
    EncodedFrame(f, tail);
    DrainStep(cfg, s, Encode(f) + tail, Apply(cfg, s, Plain(f)), |Encode(f)|);
  }

  lemma DrainRefused(cfg: Config, s: State, fs: seq<ClientFrame>, y: bytes)
    requires fs != [] && AllValid(fs) && !s.closing && HeaderError(cfg, s, fs[0].Head()).Some?
    ensures var o := Failed(s, HeaderError(cfg, s, fs[0].Head()).value);
            Drain(cfg, s, EncodeAll(fs) + y) == Run(Stream(o.state, []), o.events)
  {
    EncodeFirst(fs, y);
    EncodedFrame(fs[0], EncodeAll(fs[1..]) + y);
    var o := Failed(s, HeaderError(cfg, s, fs[0].Head()).value);
    assert o.events + [] == o.events;
  }

  lemma ThenTwice(a: Outcome, b: Outcome, r: Run)
    ensures Then(a, Then(b, r)) == Then(Outcome(b.state, a.events + b.events), r)
  {
    Associative(a.events, b.events, r.events);
  }

  // ----- one message

  predicate PingOrPong(f: ClientFrame) {
    (f.op == PING || f.op == PONG) && f.fin && !f.rsv1 && |f.payload| < 126
  }

  /**
   `fs` ends a message of which a part is `open` already: it continues, or starts and continues,
   up to the final fragment, with Pings and Pongs anywhere between (section 5.4 of RFC 6455).
   */
  predicate Carries(deflate: bool, open: bool, fs: seq<ClientFrame>)
    decreases |fs|
  {
    && fs != [] && fs[0].Valid()
    && if PingOrPong(fs[0]) then Carries(deflate, open, fs[1..])
       else
         && (if open then fs[0].op == CONTINUATION && !fs[0].rsv1
             else (fs[0].op == TEXT || fs[0].op == BINARY) && (fs[0].rsv1 ==> deflate))
         && if fs[0].fin then |fs| == 1 else Carries(deflate, true, fs[1..])
  }

  lemma {:induction false} CarriedAreValid(deflate: bool, open: bool, fs: seq<ClientFrame>)
    requires Carries(deflate, open, fs)
    ensures AllValid(fs)
    decreases |fs|
  {
    if PingOrPong(fs[0]) {
      CarriedAreValid(deflate, open, fs[1..]);
    } else if !fs[0].fin {
      CarriedAreValid(deflate, true, fs[1..]);
    }
    assert forall f | f in fs :: f == fs[0] || f in fs[1..];
  }

  /** The data octets in `fs`. */
  function Body(fs: seq<ClientFrame>): bytes {
    if fs == [] then [] else (if IsData(fs[0].op) then fs[0].payload else []) + Body(fs[1..])
  }

  function PongFor(f: ClientFrame): seq<Event> {
    if f.op == PING then [SendPong(f.payload)] else []
  }

  /** A Pong for every Ping, in order. */
  function Pongs(fs: seq<ClientFrame>): seq<Event> {
    if fs == [] then [] else PongFor(fs[0]) + Pongs(fs[1..])
  }

  /** The session `s`, between the frames of a message, when the last of `fs` completes it. */
  function Completed(s: State, fs: seq<ClientFrame>): State {
    if fs == [] then s.(open := false, data := [])
    else if fs[0].op == TEXT || fs[0].op == BINARY then
      s.(open := false, data := [], op := fs[0].op, compressed := s.compressed || fs[0].rsv1)
    else Completed(s, fs[1..])
  }

  predicate Receptive(cfg: Config, s: State) {
    Sound(cfg, s) && !s.closing && !s.closeSent && (!s.open ==> !s.compressed && s.data == [])
  }

  lemma ControlApplied(cfg: Config, s: State, f: ClientFrame)
    requires PingOrPong(f) && f.Valid()
    ensures HeaderError(cfg, s, f.Head()).None?
    ensures Apply(cfg, s, Plain(f)) == Outcome(s, PongFor(f))
  {
  }

  /** The session once the data frame `f`, not the last of its message, was taken. */
  function Fragmented(s: State, f: ClientFrame): State {
    s.(open := true, op := if s.open then s.op else f.op, compressed := s.compressed || f.rsv1, data := s.data + f.payload)
  }

  /** The message ended by `fs` does not pass the limit. */
  predicate Fits(cfg: Config, s: State, fs: seq<ClientFrame>) {
    !TooLong(cfg, |s.data| + |Body(fs)|)
  }

  function Arrival(cfg: Config, s: State, fs: seq<ClientFrame>): Outcome {
    var o := MessageComplete(cfg, Completed(s, fs), s.data + Body(fs));
    o.(events := Pongs(fs) + o.events)
  }

  /**
   Framing round trip: the frames of one message, under any masks, give a Pong for every Ping
   and then the outcome of the whole message: its frames' data joined, inflated if it was compressed.
   What follows is met by the session that the message leaves behind.
   */
  lemma {:induction false} MessageArrives(cfg: Config, s: State, fs: seq<ClientFrame>, y: bytes)
    requires Receptive(cfg, s) && Carries(cfg.deflate, s.open, fs) && AllValid(fs)
    requires var fits := Fits(cfg, s, fs); fits
    ensures var o := Arrival(cfg, s, fs);
            Drain(cfg, s, EncodeAll(fs) + y) == Then(o, Drain(cfg, o.state, y))
    decreases |fs|
  {
    var f, rest := fs[0], fs[1..];
    if PingOrPong(f) {
      ControlApplied(cfg, s, f);
      DrainEncoded(cfg, s, fs, y);
      ControlStep(cfg, s, fs);
      MessageArrives(cfg, s, rest, y);
      ArrivalStep(cfg, s, fs, s, Drain(cfg, Arrival(cfg, s, rest).state, y));
    } else if f.fin {
      assert fs == [f] && rest == [];
      FinalStep(s, f);
      LastFragment(cfg, s, f);
      DrainEncoded(cfg, s, fs, y);
      assert EncodeAll(rest) + y == y;
      var o := Arrival(cfg, s, fs);
      assert o == Apply(cfg, s, Plain(f)) by { assert [] + Apply(cfg, s, Plain(f)).events == Apply(cfg, s, Plain(f)).events; }
    } else {
      var s' := Fragmented(s, f);
      FragmentApplied(cfg, s, f, |Body(rest)|);
      DrainEncoded(cfg, s, fs, y);
      FragmentStep(cfg, s, fs);
      MessageArrives(cfg, s', rest, y);
      ArrivalStep(cfg, s, fs, s', Drain(cfg, Arrival(cfg, s', rest).state, y));
    }
  }

  lemma ArrivalStep(cfg: Config, s: State, fs: seq<ClientFrame>, s': State, r: Run)
    requires fs != [] && s.data + Body(fs) == s'.data + Body(fs[1..]) && Completed(s, fs) == Completed(s', fs[1..])
    ensures var o, q := Arrival(cfg, s, fs), Arrival(cfg, s', fs[1..]);
            o.state == q.state && Then(Outcome(s', PongFor(fs[0])), Then(q, r)) == Then(o, r)
  {
    var o, q := Arrival(cfg, s, fs), Arrival(cfg, s', fs[1..]);
    var e := MessageComplete(cfg, Completed(s, fs), s.data + Body(fs)).events;
    Associative(PongFor(fs[0]), Pongs(fs[1..]), e);
    ThenTwice(Outcome(s', PongFor(fs[0])), q, r);
  }

  lemma BodyStep(s: State, fs: seq<ClientFrame>)
    requires fs != [] && IsData(fs[0].op)
    ensures s.data + Body(fs) == Fragmented(s, fs[0]).data + Body(fs[1..])
    ensures |s.data| + |Body(fs)| == |Fragmented(s, fs[0]).data| + |Body(fs[1..])|
  {
    Associative(s.data, fs[0].payload, Body(fs[1..]));
  }

  lemma ControlStep(cfg: Config, s: State, fs: seq<ClientFrame>)
    requires fs != [] && PingOrPong(fs[0])
    ensures Body(fs) == Body(fs[1..]) && Completed(s, fs) == Completed(s, fs[1..])
    ensures var fits, fitsRest := Fits(cfg, s, fs), Fits(cfg, s, fs[1..]); fits == fitsRest
  {
  }

  lemma FragmentStep(cfg: Config, s: State, fs: seq<ClientFrame>)
    requires Carries(cfg.deflate, s.open, fs) && !PingOrPong(fs[0]) && !fs[0].fin
    ensures var fits, fitsRest := Fits(cfg, s, fs), Fits(cfg, Fragmented(s, fs[0]), fs[1..]); fits == fitsRest
    ensures var s' := Fragmented(s, fs[0]);
            && s.data + Body(fs) == s'.data + Body(fs[1..]) && Completed(s, fs) == Completed(s', fs[1..])
  {
    BodyStep(s, fs);
    ContinuedTo(cfg, Fragmented(s, fs[0]), fs[1..]);
    if s.open {
      ContinuedTo(cfg, s, fs);
    }
  }

  lemma FinalStep(s: State, f: ClientFrame)
    requires IsData(f.op)
    ensures Body([f]) == f.payload && Pongs([f]) == []
  {
    assert Body([f]) == f.payload + Body([]) && Pongs([f]) == [] + Pongs([]);
  }

  lemma LastFragment(cfg: Config, s: State, f: ClientFrame)
    requires Receptive(cfg, s) && Carries(cfg.deflate, s.open, [f]) && !PingOrPong(f)
    requires !TooLong(cfg, |s.data| + |f.payload|)
    ensures HeaderError(cfg, s, f.Head()).None?
    ensures Apply(cfg, s, Plain(f)) == MessageComplete(cfg, Completed(s, [f]), s.data + f.payload)
  {
  }

  lemma FragmentApplied(cfg: Config, s: State, f: ClientFrame, more: nat)
    requires Receptive(cfg, s) && f.Valid() && !PingOrPong(f) && !f.fin
    requires if s.open then f.op == CONTINUATION && !f.rsv1 else (f.op == TEXT || f.op == BINARY) && (f.rsv1 ==> cfg.deflate)
    requires !TooLong(cfg, |s.data| + |f.payload| + more)
    ensures HeaderError(cfg, s, f.Head()).None?
    ensures Apply(cfg, s, Plain(f)) == Outcome(Fragmented(s, f), PongFor(f)) && Receptive(cfg, Fragmented(s, f))
  {
  }

  lemma {:induction false} ContinuedTo(cfg: Config, s: State, fs: seq<ClientFrame>)
    requires Carries(cfg.deflate, true, fs)
    ensures Completed(s, fs) == s.(open := false, data := [])
    decreases |fs|
  {
    if PingOrPong(fs[0]) || !fs[0].fin {
      ContinuedTo(cfg, s, fs[1..]);
    } else {
      assert fs[1..] == [];
    }
  }

  lemma PongsOfPrefix(fs: seq<ClientFrame>, k: nat, events: seq<Event>)
    requires k < |fs|
    ensures Pongs(fs[..k + 1]) + events == PongFor(fs[0]) + (Pongs(fs[1..][..k]) + events)
  {
    assert fs[..k + 1][1..] == fs[1..][..k];
  }

  /** A message too long for the session is refused at the first fragment that shows it. */
  lemma {:induction false} LongMessageRefused(cfg: Config, s: State, fs: seq<ClientFrame>, y: bytes)
    requires Receptive(cfg, s) && Carries(cfg.deflate, s.open, fs) && AllValid(fs)
    requires !TooLong(cfg, |s.data|)
    requires var fits := Fits(cfg, s, fs); !fits
    ensures exists k | 0 <= k < |fs| ::
              Drain(cfg, s, EncodeAll(fs) + y).events == Pongs(fs[..k]) + [SendClose(1009, []), Closed(ABNORMAL, [])]
    decreases |fs|
  {
    var f, failure := fs[0], [SendClose(1009, []), Closed(ABNORMAL, [])];
    if PingOrPong(f) {
      ControlApplied(cfg, s, f);
      DrainEncoded(cfg, s, fs, y);
      ControlStep(cfg, s, fs);
      LongMessageRefused(cfg, s, fs[1..], y);
      RefusedLater(cfg, s, fs, s, y, failure);
    } else if TooLong(cfg, |s.data| + |f.payload|) {
      FragmentRefused(cfg, s, f);
      DrainRefused(cfg, s, fs, y);
      assert Pongs(fs[..0]) + failure == failure;
    } else {
      LastFits(cfg, s, fs);
      FragmentApplied(cfg, s, f, 0);
      DrainEncoded(cfg, s, fs, y);
      FragmentStep(cfg, s, fs);
      LongMessageRefused(cfg, Fragmented(s, f), fs[1..], y);
      RefusedLater(cfg, s, fs, Fragmented(s, f), y, failure);
    }
  }

  lemma FragmentRefused(cfg: Config, s: State, f: ClientFrame)
    requires Receptive(cfg, s) && f.Valid() && !PingOrPong(f) && TooLong(cfg, |s.data| + |f.payload|)
    requires if s.open then f.op == CONTINUATION && !f.rsv1 else (f.op == TEXT || f.op == BINARY) && (f.rsv1 ==> cfg.deflate)
    ensures HeaderError(cfg, s, f.Head()) == Some(1009)
  {
  }

  lemma LastFits(cfg: Config, s: State, fs: seq<ClientFrame>)
    requires Carries(cfg.deflate, s.open, fs) && !PingOrPong(fs[0]) && !TooLong(cfg, |s.data| + |fs[0].payload|)
    requires var fits := Fits(cfg, s, fs); !fits
    ensures !fs[0].fin
  {
    if fs[0].fin {
      assert fs == [fs[0]];
      FinalStep(s, fs[0]);
    }
  }

  /** If the traffic after a frame ends the session, so does the whole traffic, a frame later. */
  lemma RefusedLater(cfg: Config, s: State, fs: seq<ClientFrame>, s': State, y: bytes, failure: seq<Event>)
    requires fs != [] && AllValid(fs) && AllValid(fs[1..])
    requires Drain(cfg, s, EncodeAll(fs) + y) ==
             Then(Outcome(s', PongFor(fs[0])), Drain(cfg, s', EncodeAll(fs[1..]) + y))
    requires exists k | 0 <= k < |fs| - 1 ::
               Drain(cfg, s', EncodeAll(fs[1..]) + y).events == Pongs(fs[1..][..k]) + failure
    ensures exists k | 0 <= k < |fs| :: Drain(cfg, s, EncodeAll(fs) + y).events == Pongs(fs[..k]) + failure
  {
    var k :| 0 <= k < |fs| - 1 && Drain(cfg, s', EncodeAll(fs[1..]) + y).events == Pongs(fs[1..][..k]) + failure;
    PongsOfPrefix(fs, k, failure);
    assert Drain(cfg, s, EncodeAll(fs) + y).events == Pongs(fs[..k + 1]) + failure;
  }

  /** The plain case, from a fresh session and for any way the octets are cut into chunks. */
  lemma MessageRoundTrip(cfg: Config, fs: seq<ClientFrame>, chunks: seq<bytes>)
    requires Carries(false, false, fs) && AllValid(fs) && !TooLong(cfg, |Body(fs)|)
    requires Countable(chunks) && Concat(chunks) == EncodeAll(fs)
    ensures var op := Completed(START, fs).op;
            FeedAll(cfg, Stream(START, []), chunks) ==
              if op == TEXT && !Utf8.Text(Body(fs)) then
                Run(Stream(Failed(START.(op := op), 1007).state, []), Pongs(fs) + [SendClose(1007, []), Closed(ABNORMAL, [])])
              else Run(Stream(START.(op := op), []), Pongs(fs) + [Message(op, Body(fs))])
  {
    PlainCarries(cfg.deflate, false, fs);
    FeedAllIsDrain(cfg, Stream(START, []), chunks);
    assert [] + Concat(chunks) == EncodeAll(fs) + [] && [] + Body(fs) == Body(fs);
    MessageArrives(cfg, START, fs, []);
    PlainCompleted(fs);
    var o := Arrival(cfg, START, fs);
    assert o.events + [] == o.events;
  }

  lemma {:induction false} PlainCarries(deflate: bool, open: bool, fs: seq<ClientFrame>)
    requires Carries(false, open, fs)
    ensures Carries(deflate, open, fs)
    decreases |fs|
  {
    if PingOrPong(fs[0]) {
      PlainCarries(deflate, open, fs[1..]);
    } else if !fs[0].fin {
      PlainCarries(deflate, true, fs[1..]);
    }
  }

  lemma {:induction false} PlainCompleted(fs: seq<ClientFrame>)
    requires Carries(false, false, fs)
    ensures Completed(START, fs) == START.(op := Completed(START, fs).op)
    decreases |fs|
  {
    if PingOrPong(fs[0]) {
      PlainCompleted(fs[1..]);
    }
  }

  // ----- after the server has sent its Close frame

  /** Traffic that a conforming client may still send before it answers the Close. */
  predicate Conforms(cfg: Config, open: bool, fs: seq<ClientFrame>)
    decreases |fs|
  {
    fs != [] ==>
      && fs[0].Valid()
      && if PingOrPong(fs[0]) then Conforms(cfg, open, fs[1..])
         else
           && IsData(fs[0].op) && (fs[0].op == CONTINUATION) == open && !TooLong(cfg, |fs[0].payload|)
           && (fs[0].rsv1 ==> cfg.deflate && fs[0].op != CONTINUATION)
           && Conforms(cfg, !fs[0].fin, fs[1..])
  }

  /** Compressed messages begun in `fs`. */
  function CompressedStarts(fs: seq<ClientFrame>): nat {
    if fs == [] then 0 else (if fs[0].rsv1 then 1 else 0) + CompressedStarts(fs[1..])
  }

  function Pending(s: State): nat {
    if s.compressed then 1 else 0
  }

  predicate Leaving(cfg: Config, s: State) {
    Sound(cfg, s) && s.closeSent && !s.closing
  }

  /** The session after a frame of such traffic. */
  function Ignored(s: State, f: ClientFrame): State {
    if PingOrPong(f) then s
    else s.(open := !f.fin, op := if f.op == CONTINUATION then s.op else f.op, compressed := s.compressed || f.rsv1)
  }

  lemma LateFrame(cfg: Config, s: State, f: ClientFrame)
    requires Leaving(cfg, s) && Conforms(cfg, s.open, [f])
    ensures HeaderError(cfg, s, f.Head()) == if f.rsv1 && s.compressed then Some(1002) else None
    ensures !(f.rsv1 && s.compressed) ==> Apply(cfg, s, Plain(f)) == Outcome(Ignored(s, f), PongFor(f))
    ensures !(f.rsv1 && s.compressed) ==> Leaving(cfg, Ignored(s, f))
  {
  }

  function IgnoredAll(s: State, fs: seq<ClientFrame>): (s': State)
    ensures s'.data == s.data && s'.closeSent == s.closeSent && s'.closing == s.closing
    decreases |fs|
  {
    if fs == [] then s else IgnoredAll(Ignored(s, fs[0]), fs[1..])
  }

  /**
   After a local Close, data within the limits is dropped and Pings are answered, as long as the
   traffic starts no second compressed message, counting one the session had not delivered yet.
   */
  lemma {:induction false} DataDroppedWhileLeaving(cfg: Config, s: State, fs: seq<ClientFrame>, y: bytes)
    requires Leaving(cfg, s) && Conforms(cfg, s.open, fs) && AllValid(fs)
    requires CompressedStarts(fs) + Pending(s) <= 1
    ensures var s' := IgnoredAll(s, fs);
            && Leaving(cfg, s')
            && Drain(cfg, s, EncodeAll(fs) + y) == Then(Outcome(s', Pongs(fs)), Drain(cfg, s', y))
    decreases |fs|
  {
    if fs == [] {
      assert EncodeAll(fs) + y == y && [] + Drain(cfg, s, y).events == Drain(cfg, s, y).events;
    } else {
      var s' := Ignored(s, fs[0]);
      LateFrame(cfg, s, fs[0]);
      DrainEncoded(cfg, s, fs, y);
      DataDroppedWhileLeaving(cfg, s', fs[1..], y);
      var end := IgnoredAll(s, fs);
      ThenTwice(Outcome(s', PongFor(fs[0])), Outcome(end, Pongs(fs[1..])), Drain(cfg, end, y));
    }
  }

  /** A second compressed message is taken for a violation of the protocol: nothing resets the mark of the first. */
  lemma {:induction false} SecondCompressedMessageFails(cfg: Config, s: State, fs: seq<ClientFrame>, y: bytes)
    requires Leaving(cfg, s) && Conforms(cfg, s.open, fs) && AllValid(fs)
    requires CompressedStarts(fs) + Pending(s) > 1
    ensures exists k | 0 <= k < |fs| ::
              Drain(cfg, s, EncodeAll(fs) + y).events == Pongs(fs[..k]) + [Closed(ABNORMAL, [])]
    decreases |fs|
  {
    LateFrame(cfg, s, fs[0]);
    var end := [Closed(ABNORMAL, [])];
    if fs[0].rsv1 && s.compressed {
      DrainRefused(cfg, s, fs, y);
      assert Pongs(fs[..0]) + end == end == [] + end;
    } else {
      var s' := Ignored(s, fs[0]);
      DrainEncoded(cfg, s, fs, y);
      SecondCompressedMessageFails(cfg, s', fs[1..], y);
      RefusedLater(cfg, s, fs, s', y, end);
    }
  }

  /**
   The client's Close ends the handshake with its own code and reason exactly when at most one
   compressed message began in the traffic before it; without permessage-deflate none can.
   */
  lemma {:induction false} PeerCloseReported(cfg: Config, s: State, fs: seq<ClientFrame>, close: ClientFrame)
    requires Leaving(cfg, s) && Conforms(cfg, s.open, fs) && AllValid(fs)
    requires close.Valid() && close.op == CLOSE && close.fin && !close.rsv1 && |close.payload| < 126
    requires ParseClosePayload(close.payload).code != ABNORMAL
    ensures var events := Drain(cfg, s, EncodeAll(fs) + Encode(close)).events;
            var c := ParseClosePayload(close.payload);
            events == Pongs(fs) + [Closed(c.code, c.reason)] <==> CompressedStarts(fs) + Pending(s) <= 1
    ensures !cfg.deflate ==> CompressedStarts(fs) + Pending(s) == 0
  {
    var c := ParseClosePayload(close.payload);
    if !cfg.deflate {
      NothingCompressed(cfg, s.open, fs);
    }
    if CompressedStarts(fs) + Pending(s) <= 1 {
      DataDroppedWhileLeaving(cfg, s, fs, Encode(close));
      LateClose(cfg, IgnoredAll(s, fs), close);
    } else {
      SecondCompressedMessageFails(cfg, s, fs, Encode(close));
      var events := Drain(cfg, s, EncodeAll(fs) + Encode(close)).events;
      assert events[|events| - 1] == Closed(ABNORMAL, []);
    }
  }

  lemma LateClose(cfg: Config, s: State, close: ClientFrame)
    requires Leaving(cfg, s) && close.Valid() && close.op == CLOSE && close.fin && !close.rsv1 && |close.payload| < 126
    requires ParseClosePayload(close.payload).code != ABNORMAL
    ensures var c := ParseClosePayload(close.payload);
            Drain(cfg, s, Encode(close)).events == [Closed(c.code, c.reason)]
  {
    var c := ParseClosePayload(close.payload);
    assert Encode(close) == EncodeAll([close]) + [];
    DrainEncoded(cfg, s, [close], []);
    assert Apply(cfg, s, Plain(close)).events == [] + [Closed(c.code, c.reason)];
  }

  lemma {:induction false} NothingCompressed(cfg: Config, open: bool, fs: seq<ClientFrame>)
    requires Conforms(cfg, open, fs) && !cfg.deflate
    ensures CompressedStarts(fs) == 0
    decreases |fs|
  {
    if fs != [] {
      NothingCompressed(cfg, if PingOrPong(fs[0]) then open else !fs[0].fin, fs[1..]);
    }
  }

  /** The smallest case that goes wrong: two compressed messages, one octet each, after a local Close. */
  lemma TwoLateCompressedMessages(cfg: Config, key: Key)
    requires cfg.deflate
    ensures var m := ClientFrame(true, true, BINARY, key, [0]);
            && Conforms(cfg, false, [m, m])
            && Drain(cfg, START.(closeSent := true), Encode(m) + Encode(m)).events == [Closed(ABNORMAL, [])]
  {
    var m := ClientFrame(true, true, BINARY, key, [0]);
    var s := START.(closeSent := true);
    assert [m, m][1..] == [m] && [m][1..] == [];
    assert Conforms(cfg, false, [m]);
    assert EncodeAll([m]) == Encode(m) + [];
    assert EncodeAll([m, m]) + [] == Encode(m) + Encode(m);
    SecondCompressedMessageFails(cfg, s, [m, m], []);
    var k :| 0 <= k < 2
      && Drain(cfg, s, EncodeAll([m, m]) + []).events == Pongs([m, m][..k]) + [Closed(ABNORMAL, [])];
    assert k == 0 || [m, m][..k] == [m];
  }
}
