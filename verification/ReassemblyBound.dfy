/**
 The payload limit: neither the fragments held back nor a message handed out,
 inflated ones included, is ever longer than the session allows.
 */
module ReassemblyBound {
  import opened Octets
  import opened Masking
  import opened Framing
  import opened Reference
  import opened StreamSession

  /** Only a message inflated in a session without limit may be of any length. */
  predicate AllBounded(cfg: Config, events: seq<Event>) {
    forall e | e in events && e.Message? && (cfg.maxPayload != 0 || !cfg.deflate) :: !TooLong'(cfg, |e.payload|)
  }

  /** An inflated message is measured against the limit alone. */
  predicate TooLong'(cfg: Config, n: nat) {
    if cfg.maxPayload != 0 then n > cfg.maxPayload else n > UINT_MAX
  }

  lemma AllBoundedConcat(cfg: Config, xs: seq<Event>, ys: seq<Event>)
    requires AllBounded(cfg, xs) && AllBounded(cfg, ys)
    ensures AllBounded(cfg, xs + ys)
  {
  }

  lemma CompleteBounded(cfg: Config, s: State, whole: bytes)
    requires Sound(cfg, s) && !TooLong(cfg, |whole|)
    ensures var o := MessageComplete(cfg, s, whole); Sound(cfg, o.state) && AllBounded(cfg, o.events)
  {
  }

  lemma ApplyBounded(cfg: Config, s: State, f: Frame)
    requires |f.payload| == f.head.length && Sound(cfg, s)
    ensures var o := Apply(cfg, s, f); Sound(cfg, o.state) && AllBounded(cfg, o.events)
  {
    var h := f.head;
    if HeaderError(cfg, s, h).None? && IsData(h.op) && !s.closeSent && h.fin {
      var s' := s.(open := false, op := if h.op == CONTINUATION then s.op else h.op,
                   compressed := s.compressed || h.rsv1, data := []);
      CompleteBounded(cfg, s', s.data + f.payload);
    }
  }

  lemma {:induction false} DrainBounded(cfg: Config, s: State, b: bytes)
    requires Sound(cfg, s)
    ensures var r := Drain(cfg, s, b);
            Sound(cfg, r.stream.state) && AllBounded(cfg, r.events)
    decreases |b|
  {
    if !s.closing && NextStep(cfg, s, b).Done? {
      var Done(o, size) := NextStep(cfg, s, b);
      var h := ParseHeader(b).value;
      if HeaderError(cfg, s, h).None? {
        ApplyBounded(cfg, s, Frame(h, Unmask(b[h.Size()..size], h.key)));
      }
      DrainBounded(cfg, o.state, b[size..]);
      AllBoundedConcat(cfg, o.events, Drain(cfg, o.state, b[size..]).events);
    }
  }

  lemma FeedBounded(cfg: Config, st: Stream, chunk: bytes)
    requires Sound(cfg, st.state)
    ensures var r := Feed(cfg, st, chunk); Sound(cfg, r.stream.state) && AllBounded(cfg, r.events)
  {
    DrainBounded(cfg, st.state, st.pending + chunk);
  }

  /** Of the session as it runs, at any moment: what it keeps fits, and so does every message of its next chunk. */
  lemma SessionBounded(session: Session, chunk: bytes)
    requires session.Valid()
    ensures !session.closing ==>
              && session.controlTipLength <= |session.fragmentBuffer|
              && !TooLong(session.cfg, |session.fragmentBuffer| - session.controlTipLength)
    ensures AllBounded(session.cfg, Feed(session.cfg, session.stream, chunk).events)
  {
    if !session.closing {
      session.BufferIsMessageThenTip();
    }
    FeedBounded(session.cfg, session.stream, chunk);
  }

  /** Whatever is done to a session, in whatever order, the limit holds: for what it keeps and for what it hands out. */
  lemma {:induction false} LifeBounded(cfg: Config, st: Stream, calls: seq<Call>)
    requires Sound(cfg, st.state)
    ensures var r := AnswerAll(cfg, st, calls);
            && Sound(cfg, r.stream.state)
            && forall o | o in r.outputs && o.Said? :: AllBounded(cfg, [o.event])
    decreases |calls|
  {
    if calls != [] {
      var r := Answer(cfg, st, calls[0]);
      AnswerBounded(cfg, st, calls[0]);
      LifeBounded(cfg, r.stream, calls[1..]);
    }
  }

  lemma AnswerBounded(cfg: Config, st: Stream, call: Call)
    requires Sound(cfg, st.state)
    ensures var r := Answer(cfg, st, call);
            && Sound(cfg, r.stream.state)
            && forall o | o in r.outputs && o.Said? :: AllBounded(cfg, [o.event])
  {
    if call.Receive? {
      FeedBounded(cfg, st, call.chunk);
      var events := Feed(cfg, st, call.chunk).events;
      forall o | o in AllSaid(events)
        ensures o.Said? && AllBounded(cfg, [o.event])
      {
        assert o.event in events;
      }
    }
  }
}
