/**
 The closing handshake over the whole life of a session: whatever octets arrive and
 whatever the application sends, at most one Close frame is written, nothing but Pongs
 follows it, and the end of the connection is reported at most once, last.
 */
module CloseDiscipline {
  import opened Octets
  import opened Framing
  import Masking
  import opened Closing
  import opened Reference

  /** How far the closing handshake has gone. */
  datatype Phase = Open | CloseWritten | Ended

  function PhaseOf(s: State): Phase {
    if s.closing then Ended else if s.closeSent then CloseWritten else Open
  }

  /** What may come out in each phase (sections 5.5.1 and 7.1 of RFC 6455). */
  function Advance(p: Phase, o: Output): Option<Phase> {
    match o
    case DataFrame(_, _, _) => if p == Open then Some(Open) else None
    case Said(Message(_, _)) => if p == Open then Some(Open) else None
    case Said(SendPong(_)) => if p == Ended then None else Some(p)
    case Said(SendClose(_, _)) => if p == Open then Some(CloseWritten) else None
    case Said(Closed(_, _)) => if p == CloseWritten then Some(Ended) else None
  }

  /** The phase after `outputs`, if each of them was allowed. */
  function Follow(p: Phase, outputs: seq<Output>): Option<Phase>
    decreases |outputs|
  {
    if outputs == [] then Some(p)
    else match Advance(p, outputs[0])
      case None => None
      case Some(p') => Follow(p', outputs[1..])
  }

  lemma {:induction false} FollowConcat(p: Phase, xs: seq<Output>, ys: seq<Output>)
    requires Follow(p, xs).Some?
    ensures Follow(p, xs + ys) == Follow(Follow(p, xs).value, ys)
    decreases |xs|
  {
    if xs == [] {
      assert xs + ys == ys;
    } else {
      assert (xs + ys)[1..] == xs[1..] + ys;
      FollowConcat(Advance(p, xs[0]).value, xs[1..], ys);
    }
  }

  lemma AllSaidConcat(xs: seq<Event>, ys: seq<Event>)
    ensures AllSaid(xs + ys) == AllSaid(xs) + AllSaid(ys)
  {
  }

  // ----- every step obeys

  predicate Obeys(s: State, o: Outcome) {
    Follow(PhaseOf(s), AllSaid(o.events)) == Some(PhaseOf(o.state)) && (o.state.closing ==> o.state.closeSent)
  }

  lemma OneOutput(p: Phase, e: Event)
    ensures Follow(p, AllSaid([e])) == Advance(p, Said(e))
  {
    assert AllSaid([e])[1..] == [];
  }

  lemma NoOutput(p: Phase)
    ensures Follow(p, AllSaid([])) == Some(p)
  {
  }

  /** The end of a session: a Close frame, unless one was sent, and the report. */
  lemma EndObeys(s: State, s': State, code: nat, reason: bytes, code': nat, reason': bytes)
    requires !s.closing && s'.closing && s'.closeSent
    ensures Obeys(s, Outcome(s', (if s.closeSent then [] else [SendClose(code, reason)]) + [Closed(code', reason')]))
  {
    var close, closed := [SendClose(code, reason)], [Closed(code', reason')];
    OneOutput(CloseWritten, closed[0]);
    if s.closeSent {
      assert [] + closed == closed;
    } else {
      OneOutput(Open, close[0]);
      AllSaidConcat(close, closed);
      FollowConcat(Open, AllSaid(close), AllSaid(closed));
    }
  }

  lemma FailureObeys(s: State, s': State, code: nat)
    requires !s.closing && PhaseOf(s') == PhaseOf(s)
    ensures Obeys(s, Failed(s', code))
  {
    EndObeys(s, Failed(s', code).state, code, [], ABNORMAL, []);
  }

  lemma ApplyObeys(cfg: Config, s: State, f: Frame)
    requires |f.payload| == f.head.length && !s.closing
    ensures Obeys(s, Apply(cfg, s, f))
  {
    NoOutput(PhaseOf(s));
    match HeaderError(cfg, s, f.head)
    case Some(code) => FailureObeys(s, s, code);
    case None =>
      if IsData(f.head.op) {
        DataObeys(cfg, s, f.head, f.payload);
      } else {
        ControlObeys(s, f.head.op, f.payload);
      }
  }

  lemma DataObeys(cfg: Config, s: State, h: Header, payload: bytes)
    requires !s.closing
    ensures Obeys(s, DeliverData(cfg, s, h, payload))
  {
    NoOutput(PhaseOf(s));
    if !s.closeSent && h.fin {
      var s' := s.(open := false, op := if h.op == CONTINUATION then s.op else h.op,
                   compressed := s.compressed || h.rsv1, data := []);
      CompleteObeys(cfg, s', s.data + payload);
    }
  }

  lemma CompleteObeys(cfg: Config, s: State, whole: bytes)
    requires PhaseOf(s) == Open
    ensures Obeys(s, MessageComplete(cfg, s, whole))
  {
    if s.compressed {
      var s' := s.(compressed := false, history := s.history + [whole]);
      match InflateOutcome(Inflate(cfg, s.history, whole), cfg.maxPayload)
      case Inflated(data) => TextObeys(s', data);
      case InvalidData => FailureObeys(s, s', 1007);
      case PayloadTooLarge => FailureObeys(s, s', 1009);
      case InternalError => FailureObeys(s, s', 1011);
    } else {
      TextObeys(s, whole);
    }
  }

  lemma TextObeys(s: State, payload: bytes)
    requires PhaseOf(s) == Open
    ensures Obeys(s, TextChecked(s, payload))
  {
    FailureObeys(s, s, 1007);
    OneOutput(Open, Message(s.op, payload));
  }

  lemma ControlObeys(s: State, op: nat, payload: bytes)
    requires !s.closing && |payload| < 126
    ensures Obeys(s, DeliverControl(s, op, payload))
  {
    if op == CLOSE {
      var close := ParseClosePayload(payload);
      FailureObeys(s, s, 1002);
      EndObeys(s, s.(closing := true, closeSent := true), close.code, close.reason, close.code, close.reason);
    } else {
      NoOutput(PhaseOf(s));
      OneOutput(PhaseOf(s), SendPong(payload));
    }
  }

  // ----- and so does every life

  lemma {:induction false} DrainObeys(cfg: Config, s: State, b: bytes)
    requires s.closing ==> s.closeSent
    ensures var r := Drain(cfg, s, b); Obeys(s, Outcome(r.stream.state, r.events))
    decreases |b|
  {
    NoOutput(PhaseOf(s));
    if !s.closing && NextStep(cfg, s, b).Done? {
      var Done(o, size) := NextStep(cfg, s, b);
      StepObeys(cfg, s, b);
      var r := Drain(cfg, o.state, b[size..]);
      DrainObeys(cfg, o.state, b[size..]);
      AllSaidConcat(o.events, r.events);
      FollowConcat(PhaseOf(s), AllSaid(o.events), AllSaid(r.events));
    }
  }

  lemma StepObeys(cfg: Config, s: State, b: bytes)
    requires !s.closing && NextStep(cfg, s, b).Done?
    ensures Obeys(s, NextStep(cfg, s, b).outcome)
  {
    var h := ParseHeader(b).value;
    match HeaderError(cfg, s, h)
    case Some(code) => FailureObeys(s, s, code);
    case None => ApplyObeys(cfg, s, Frame(h, Masking.Unmask(b[h.Size()..h.Size() + h.length], h.key)));
  }

  lemma AnswerObeys(cfg: Config, st: Stream, call: Call)
    requires st.state.closing ==> st.state.closeSent
    ensures var r := Answer(cfg, st, call);
            && Follow(PhaseOf(st.state), r.outputs) == Some(PhaseOf(r.stream.state))
            && (r.stream.state.closing ==> r.stream.state.closeSent)
  {
    match call
    case Receive(chunk) =>
      NoOutput(PhaseOf(st.state));
      if !st.state.closing && chunk != [] {
        FailureObeys(st.state, st.state, 1009);
        DrainObeys(cfg, st.state, st.pending + chunk);
      }
    case CreateFrame(_, _, _, _) =>
    case CreateCloseFrame(code, reason) =>
      OneOutput(Open, SendClose(code, reason));
      assert AllSaid([SendClose(code, reason)]) == [Said(SendClose(code, reason))];
  }

  /** The discipline holds over any calls in any order. */
  lemma {:induction false} LifeObeys(cfg: Config, st: Stream, calls: seq<Call>)
    requires st.state.closing ==> st.state.closeSent
    ensures var r := AnswerAll(cfg, st, calls);
            Follow(PhaseOf(st.state), r.outputs) == Some(PhaseOf(r.stream.state))
    decreases |calls|
  {
    if calls != [] {
      var r := Answer(cfg, st, calls[0]);
      AnswerObeys(cfg, st, calls[0]);
      LifeObeys(cfg, r.stream, calls[1..]);
      FollowConcat(PhaseOf(st.state), r.outputs, AnswerAll(cfg, r.stream, calls[1..]).outputs);
    }
  }

  // ----- what the discipline means, place by place

  predicate IsClose(o: Output) { o.Said? && o.event.SendClose? }
  predicate IsEnd(o: Output) { o.Said? && o.event.Closed? }
  predicate IsPong(o: Output) { o.Said? && o.event.SendPong? }

  /** Once the session has ended nothing comes out; once its Close is written, only Pongs and the end. */
  lemma {:induction false} AfterClose(p: Phase, outputs: seq<Output>)
    requires Follow(p, outputs).Some? && p != Open
    ensures p == Ended ==> outputs == []
    ensures forall i | 0 <= i < |outputs| :: IsPong(outputs[i]) || (IsEnd(outputs[i]) && i == |outputs| - 1)
    decreases |outputs|
  {
    if outputs != [] {
      var p' := Advance(p, outputs[0]).value;
      AfterClose(p', outputs[1..]);
      forall i | 0 < i < |outputs|
        ensures IsPong(outputs[i]) || (IsEnd(outputs[i]) && i == |outputs| - 1)
      {
        assert outputs[i] == outputs[1..][i - 1];
      }
    }
  }

  lemma {:induction false} FollowSplit(p: Phase, outputs: seq<Output>, i: nat)
    requires Follow(p, outputs).Some? && i <= |outputs|
    ensures Follow(p, outputs[..i]).Some?
    ensures Follow(Follow(p, outputs[..i]).value, outputs[i..]) == Follow(p, outputs)
    decreases i
  {
    if i > 0 {
      FollowSplit(Advance(p, outputs[0]).value, outputs[1..], i - 1);
      assert outputs[..i][1..] == outputs[1..][..i - 1];
      assert outputs[1..][i - 1..] == outputs[i..];
    } else {
      assert outputs[..0] == [] && outputs[0..] == outputs;
    }
  }

  lemma {:induction false} CloseCameFirst(outputs: seq<Output>)
    requires Follow(Open, outputs) == Some(CloseWritten)
    ensures exists i | 0 <= i < |outputs| :: IsClose(outputs[i])
    decreases |outputs|
  {
    if !IsClose(outputs[0]) {
      CloseCameFirst(outputs[1..]);
      var i :| 0 <= i < |outputs| - 1 && IsClose(outputs[1..][i]);
      assert IsClose(outputs[i + 1]);
    }
  }

  lemma OutputAfterClose(outputs: seq<Output>, i: nat, j: nat)
    requires Follow(Open, outputs).Some? && i < j < |outputs| && IsClose(outputs[i])
    ensures IsPong(outputs[j]) || (IsEnd(outputs[j]) && j == |outputs| - 1)
  {
    FollowSplit(Open, outputs, i);
    var rest := outputs[i..];
    assert rest[0] == outputs[i];
    AfterClose(CloseWritten, rest[1..]);
    assert outputs[j] == rest[1..][j - i - 1];
  }

  lemma OutputAtEnd(outputs: seq<Output>, j: nat)
    requires Follow(Open, outputs).Some? && j < |outputs| && IsEnd(outputs[j])
    ensures j == |outputs| - 1 && exists i | 0 <= i < j :: IsClose(outputs[i])
  {
    FollowSplit(Open, outputs, j);
    var rest := outputs[j..];
    assert rest[0] == outputs[j];
    AfterClose(Ended, rest[1..]);
    CloseCameFirst(outputs[..j]);
    var i :| 0 <= i < j && IsClose(outputs[..j][i]);
    assert IsClose(outputs[i]);
  }

  predicate ClosedProperly(outputs: seq<Output>) {
    && (forall i, j | 0 <= i < j < |outputs| && IsClose(outputs[i]) ::
          IsPong(outputs[j]) || (IsEnd(outputs[j]) && j == |outputs| - 1))
    && (forall j | 0 <= j < |outputs| && IsEnd(outputs[j]) ::
          j == |outputs| - 1 && exists i | 0 <= i < j :: IsClose(outputs[i]))
  }

  /**
   Close discipline: in the life of any session, whatever follows the Close frame is a Pong
   or the final report. So there is one Close frame at most, no data frame and no message
   after it, and the report comes at most once, after the Close frame, and is the last thing said.
   */
  lemma ClosesOnce(cfg: Config, calls: seq<Call>)
    ensures ClosedProperly(AnswerAll(cfg, Stream(START, []), calls).outputs)
  {
    var outputs := AnswerAll(cfg, Stream(START, []), calls).outputs;
    LifeObeys(cfg, Stream(START, []), calls);
    forall i, j | 0 <= i < j < |outputs| && IsClose(outputs[i])
      ensures IsPong(outputs[j]) || (IsEnd(outputs[j]) && j == |outputs| - 1)
    {
      OutputAfterClose(outputs, i, j);
    }
    forall j | 0 <= j < |outputs| && IsEnd(outputs[j])
      ensures j == |outputs| - 1 && exists i | 0 <= i < j :: IsClose(outputs[i])
    {
      OutputAtEnd(outputs, j);
    }
  }
}
