/**
 The outcome of a session depends on the octets received, not on how the
 transport cut them into chunks; and it is the outcome of decoding whole frames
 first and interpreting them afterwards.
 */
module ChunkIndependence {
  import opened Octets
  import opened Masking
  import opened Framing
  import opened Reference

  /** What a stream has decided stays decided when more octets arrive. */
  lemma NextStepPrefix(cfg: Config, s: State, x: bytes, y: bytes)
    requires NextStep(cfg, s, x).Done?
    ensures NextStep(cfg, s, x + y) == NextStep(cfg, s, x)
  {
    ParseHeaderPrefix(x, y);
    var h := ParseHeader(x).value;
    if HeaderError(cfg, s, h).None? {
      SliceOfFirst(x, y, h.Size(), NextStep(cfg, s, x).size);
    }
  }

  function Then(o: Outcome, r: Run): Run {
    r.(events := o.events + r.events)
  }

  lemma DrainStep(cfg: Config, s: State, b: bytes, o: Outcome, size: nat)
    requires !s.closing && NextStep(cfg, s, b) == Done(o, size)
    ensures size <= |b| && Drain(cfg, s, b) == Then(o, Drain(cfg, o.state, b[size..]))
  {
  }

  function DrainTwice(cfg: Config, s: State, x: bytes, y: bytes): Run {
    var r := Drain(cfg, s, x);
    var q := Drain(cfg, r.stream.state, r.stream.pending + y);
    q.(events := r.events + q.events)
  }

  /** Draining in two parts gives what draining at once gives. */
  lemma {:induction false} DrainSplit(cfg: Config, s: State, x: bytes, y: bytes)
    ensures Drain(cfg, s, x + y) == DrainTwice(cfg, s, x, y)
    decreases |x|
  {
    if s.closing || NextStep(cfg, s, x).More? {
      DrainSplitIdle(cfg, s, x, y);
    } else {
      var Done(o, size) := NextStep(cfg, s, x);
      DrainSplitStep(cfg, s, x, y);
      DrainSplit(cfg, o.state, x[size..], y);
      DrainTwiceStep(cfg, s, x, y, o, x[size..]);
    }
  }

  lemma {:induction false} DrainParts(cfg: Config, s: State, x: bytes, y: bytes)
    ensures var r := Drain(cfg, s, x);
            var q := Drain(cfg, r.stream.state, r.stream.pending + y);
            Drain(cfg, s, x + y).stream == q.stream && Drain(cfg, s, x + y).events == r.events + q.events
  {
    DrainSplit(cfg, s, x, y);
  }

  lemma DrainSplitIdle(cfg: Config, s: State, x: bytes, y: bytes)
    requires s.closing || NextStep(cfg, s, x).More?
    ensures Drain(cfg, s, x + y) == DrainTwice(cfg, s, x, y)
  {
    var q := Drain(cfg, s, x + y);
    assert [] + q.events == q.events;
  }

  lemma DrainSplitStep(cfg: Config, s: State, x: bytes, y: bytes)
    requires !s.closing && NextStep(cfg, s, x).Done?
    ensures var Done(o, size) := NextStep(cfg, s, x);
            && Drain(cfg, s, x) == Then(o, Drain(cfg, o.state, x[size..]))
            && Drain(cfg, s, x + y) == Then(o, Drain(cfg, o.state, x[size..] + y))
  {
    var Done(o, size) := NextStep(cfg, s, x);
    NextStepPrefix(cfg, s, x, y);
    DrainStep(cfg, s, x, o, size);
    DrainStep(cfg, s, x + y, o, size);
    DropOfFirst(x, y, size);
  }

  lemma DrainTwiceStep(cfg: Config, s: State, x: bytes, y: bytes, o: Outcome, x': bytes)
    requires Drain(cfg, s, x) == Then(o, Drain(cfg, o.state, x'))
    ensures DrainTwice(cfg, s, x, y) == Then(o, DrainTwice(cfg, o.state, x', y))
  {
    var r := Drain(cfg, o.state, x');
    ThenAssociates(o, r, Drain(cfg, r.stream.state, r.stream.pending + y));
  }

  lemma ThenAssociates(o: Outcome, r: Run, q: Run)
    ensures Then(o, q.(events := r.events + q.events)) == q.(events := Then(o, r).events + q.events)
  {
    assert o.events + (r.events + q.events) == (o.events + r.events) + q.events;
  }

  /** Nothing more can be drained: the pending octets decide nothing yet. */
  predicate Settled(cfg: Config, st: Stream) {
    Drain(cfg, st.state, st.pending) == Run(st, [])
  }

  lemma {:induction false} DrainSettles(cfg: Config, s: State, b: bytes)
    ensures Settled(cfg, Drain(cfg, s, b).stream)
  {
    DrainSplit(cfg, s, b, []);
    var r := Drain(cfg, s, b);
    assert b + [] == b && r.stream.pending + [] == r.stream.pending;
    var q := Drain(cfg, r.stream.state, r.stream.pending);
    assert r.events + q.events == r.events ==> q.events == [];
  }

  predicate Countable(chunks: seq<bytes>) {
    forall i | 0 <= i < |chunks| :: |chunks[i]| <= UINT_MAX
  }

  lemma {:induction false} FeedAllIsDrain(cfg: Config, st: Stream, chunks: seq<bytes>)
    requires Settled(cfg, st) && Countable(chunks)
    ensures FeedAll(cfg, st, chunks) == Drain(cfg, st.state, st.pending + Concat(chunks))
    decreases |chunks|
  {
    if chunks == [] {
      assert st.pending + [] == st.pending;
    } else {
      var x, rest := chunks[0], Concat(chunks[1..]);
      assert st.pending + Concat(chunks) == (st.pending + x) + rest;
      DrainSplit(cfg, st.state, st.pending + x, rest);
      DrainSettles(cfg, st.state, st.pending + x);
      assert st.pending + [] == st.pending;
      var r := Feed(cfg, st, x);
      assert r == Drain(cfg, st.state, st.pending + x);
      FeedAllIsDrain(cfg, r.stream, chunks[1..]);
    }
  }

  /**
   Chunk independence: two ways of cutting the same octets give the same events and
   leave the same session behind.
   */
  lemma {:induction false} ChunksDoNotMatter(cfg: Config, st: Stream, chunks: seq<bytes>, chunks': seq<bytes>)
    requires Settled(cfg, st) && Countable(chunks) && Countable(chunks')
    requires Concat(chunks) == Concat(chunks')
    ensures FeedAll(cfg, st, chunks) == FeedAll(cfg, st, chunks')
  {
    FeedAllIsDrain(cfg, st, chunks);
    FeedAllIsDrain(cfg, st, chunks');
  }

  /** Byte-by-byte delivery is the finest cut. */
  function Singly(b: bytes): (chunks: seq<bytes>)
    ensures Concat(chunks) == b && Countable(chunks)
  {
    if b == [] then [] else [b[..1]] + Singly(b[1..])
  }

  lemma ByteByByte(cfg: Config, chunks: seq<bytes>)
    requires Countable(chunks)
    ensures FeedAll(cfg, Stream(START, []), Singly(Concat(chunks))) == FeedAll(cfg, Stream(START, []), chunks)
  {
    ChunksDoNotMatter(cfg, Stream(START, []), Singly(Concat(chunks)), chunks);
  }

  /**
   The size condition is needed: a chunk that an `unsigned int` cannot count fails a session
   that has not closed, whatever is in it.
   */
  lemma OversizeChunkFails(cfg: Config, st: Stream, chunk: bytes)
    requires !st.state.closing && |chunk| > UINT_MAX
    ensures Feed(cfg, st, chunk).stream.state.closing
    ensures Feed(cfg, st, chunk).events ==
            (if st.state.closeSent then [] else [SendClose(1009, [])]) + [Closed(1006, [])]
  {
  }

  // ----- frames first, meaning second

  /** The whole frames at the front of `b`, and the rest (section 5.2 of RFC 6455). */
  function Split(b: bytes): (r: (seq<Frame>, bytes))
    ensures forall f | f in r.0 :: |f.payload| == f.head.length
    decreases |b|
  {
    match ParseHeader(b)
    case None => ([], b)
    case Some(h) =>
      var size := h.Size() + h.length;
      if |b| < size then ([], b)
      else
        var (frames, tail) := Split(b[size..]);
        ([Frame(h, Unmask(b[h.Size()..size], h.key))] + frames, tail)
  }

  /**
   The meaning of a list of frames followed by an unfinished one, whose header alone may
   already be unacceptable (sections 5.4 and 5.5 of RFC 6455).
   */
  function Meaning(cfg: Config, s: State, frames: seq<Frame>, tail: bytes): Outcome
    requires forall f | f in frames :: |f.payload| == f.head.length
    decreases |frames|
  {
    if s.closing then Outcome(s, [])
    else if frames == [] then
      match ParseHeader(tail)
      case None => Outcome(s, [])
      case Some(h) =>
        match HeaderError(cfg, s, h)
        case None => Outcome(s, [])
        case Some(code) => Failed(s, code)
    else
      assert frames[0] in frames;
      var o := Apply(cfg, s, frames[0]);
      var q := Meaning(cfg, o.state, frames[1..], tail);
      q.(events := o.events + q.events)
  }

  /** Reading incrementally is reading whole frames, then applying the rules to them. */
  lemma {:induction false} DrainIsMeaning(cfg: Config, s: State, b: bytes)
    ensures var (frames, tail) := Split(b);
            var r := Drain(cfg, s, b);
            Meaning(cfg, s, frames, tail) == Outcome(r.stream.state, r.events)
    decreases |b|
  {
    hide Unmask, HeaderError, ParseHeader, DeliverData, DeliverControl;
    var (frames, tail) := Split(b);
    if !s.closing && ParseHeader(b).Some? {
      var h := ParseHeader(b).value;
      var size := h.Size() + h.length;
      if HeaderError(cfg, s, h).Some? {
        var o := Failed(s, HeaderError(cfg, s, h).value);
        assert o.events + [] == o.events;
        if frames != [] {
          assert frames[0].head == h;
        }
      } else if size <= |b| {
        DrainIsMeaning(cfg, NextStep(cfg, s, b).outcome.state, b[size..]);
        assert frames[1..] == Split(b[size..]).0;
      }
    }
  }

  /** The layered reference, for any way of delivering the octets. */
  lemma FeedAllIsMeaning(cfg: Config, chunks: seq<bytes>)
    requires Countable(chunks)
    ensures var (frames, tail) := Split(Concat(chunks));
            FeedAll(cfg, Stream(START, []), chunks).events == Meaning(cfg, START, frames, tail).events
  {
    FeedAllIsDrain(cfg, Stream(START, []), chunks);
    assert [] + Concat(chunks) == Concat(chunks);
    DrainIsMeaning(cfg, START, Concat(chunks));
  }
}
