/**
 What surrounds a transport: the answers of the descriptor, the TLS library and the input, the callbacks it
 makes, and what it owes them. Every activity is judged by what was so before and after it.
 */
module TransportWorld {
  import opened Octets
  import opened WritePipeline
  import W = WriteRequests

  /** What the descriptor does with octets offered to it. */
  datatype Answer = Took(n: nat) | Blocked | Broken

  /** What the TLS library does with plaintext, or when it is asked to shut down. */
  datatype TLSAnswer = Encrypted(n: nat, text: bytes) | WantRead | WantWrite | Refused

  /** A Pong or Close frame: a header of two octets and a payload of at most 125. */
  type ControlFrame = f: bytes | |f| <= 127 witness []

  /** What one frame parsed from the input asks for. */
  datatype Incoming = Reply(frame: ControlFrame) | Message | Close

  /** What a read finds; TLS may also produce `text` for the peer. `last` tells that no more input is buffered. */
  datatype Reading = Data(events: seq<Incoming>, text: bytes, last: bool) | Nothing(text: bytes) | EndOfInput | Failure

  // ----- faults: answers after which a connection cannot go on

  function BrokenIn(answers: seq<Answer>): nat {
    if answers == [] then 0 else (if answers[0] == Broken then 1 else 0) + BrokenIn(answers[1..])
  }

  function RefusedIn(answers: seq<TLSAnswer>): nat {
    if answers == [] then 0 else (if answers[0] == Refused then 1 else 0) + RefusedIn(answers[1..])
  }

  /** Among the readings from `i` on. */
  function EndsIn(readings: seq<Reading>, i: nat): nat
    decreases |readings| - i
  {
    if i >= |readings| then 0
    else (if readings[i] == EndOfInput || readings[i] == Failure then 1 else 0) + EndsIn(readings, i + 1)
  }

  // ----- an activity, from `a` to `b`

  /**
   One moment: how the transport stands, how many scripts and faults are still to come, how many callbacks of
   writes have started, how often octets were refused, how many readings were taken.
   */
  datatype Side = Side(
    closing: bool, ending: Ending, accepted: bytes, handed: nat, limit: nat, tls: bool,
    scripts: nat, log: nat, faults: nat, refusals: nat, taken: nat,
    sessionClosed: bool, graceful: bool, asked: bool, output: bool)

  /**
   What every activity obeys: nothing comes back, every callback of a write runs a script if there is one, and a
   graceful end is one that was asked for, of TLS too.
   */
  predicate Heeds(a: Side, b: Side) {
    && b.limit == a.limit && b.tls == a.tls
    && b.scripts <= a.scripts && b.faults <= a.faults && a.refusals <= b.refusals && a.taken <= b.taken
    && (b.scripts == 0 || b.scripts + b.log <= a.scripts + a.log)
    && a.accepted <= b.accepted
    && (a.sessionClosed ==> b.sessionClosed) && (a.graceful ==> b.graceful) && (a.asked ==> b.asked)
    && (a.closing ==> b.closing && b.ending == a.ending && b.accepted == a.accepted && b.handed == a.handed)
    && (!a.closing && b.closing && b.ending == Graceful ==> b.graceful && (b.tls ==> b.asked))
  }

  /** After a fault the transport is closed. */
  predicate Heeded(a: Side, b: Side) {
    b.faults < a.faults ==> b.closing
  }

  /** Ciphertext is not left lying about: what is held back now was so before, or octets were refused. */
  predicate Quiet(a: Side, b: Side) {
    b.output && !b.closing ==> a.output || b.refusals > a.refusals
  }

  /** Octets accepted and not counted as sent. */
  function Unhanded(s: Side): int {
    |s.accepted| - s.handed
  }

  /** It was closed by force for a reason: a fault, a script, or more pending octets than the limit, or than can be counted. */
  predicate Justified(a: Side, b: Side) {
    !a.closing && b.closing && b.ending == Forced ==>
      || b.faults < a.faults || b.scripts < a.scripts
      || (b.limit != 0 && Unhanded(b) > b.limit) || Unhanded(b) + 127 > W.SIZE_MAX
  }

  predicate Fair(a: Side, b: Side) {
    Heeds(a, b) && Heeded(a, b) && Quiet(a, b) && Justified(a, b)
  }

  lemma FairItself(a: Side)
    ensures Fair(a, a)
  {
  }

  lemma HeedsOn(a: Side, b: Side, c: Side)
    requires Heeds(a, b) && Heeds(b, c)
    ensures Heeds(a, c)
    ensures Heeded(a, b) && Heeded(b, c) ==> Heeded(a, c)
    ensures Quiet(a, b) && Quiet(b, c) ==> Quiet(a, c)
    ensures Justified(a, b) && Justified(b, c) ==> Justified(a, c)
  {
  }

  /** A script ran, whatever it did. */
  lemma ScriptRan(a: Side, b: Side, c: Side)
    requires a.scripts > 0 && b == a.(scripts := a.scripts - 1)
    requires Heeds(b, c) && Heeded(b, c) && Quiet(b, c)
    ensures Fair(a, c) && (c.scripts == 0 || c.scripts + c.log < a.scripts + a.log)
  {
  }

  /** A callback of a write was noted and ran its script. */
  lemma CallbackRan(a: Side, b: Side, c: Side)
    requires b == a.(log := a.log + 1) && Fair(b, c)
    requires c.scripts == 0 || c.scripts + c.log < b.scripts + b.log
    ensures Fair(a, c)
  {
  }

  /** It was closed, and everything queued canceled. */
  lemma ClosedHeeds(a: Side, b: Side, c: Side, d: Side)
    requires !a.closing && b == a.(closing := true, ending := b.ending) && Heeds(b, c) && d == c.(output := d.output)
    requires b.ending == Graceful ==> a.graceful && (a.tls ==> a.asked)
    ensures Heeds(a, d) && Heeded(a, d) && Quiet(a, d)
    ensures d.closing && d.ending == b.ending && d.accepted == a.accepted && d.handed == a.handed
  {
  }

  /** After a fault, or once it was closed with reason, it is closed. */
  lemma FaultIsFair(a: Side, b: Side, c: Side)
    requires Heeds(a, b) && Justified(a, b) && Heeds(b, c) && c.closing && (b.closing || b.faults < a.faults)
    ensures Fair(a, c)
  {
  }

  /** Steps of an open transport that leave what it owes to others alone. */
  lemma StepIsFair(a: Side, b: Side)
    requires b == a.(accepted := b.accepted, handed := b.handed, refusals := b.refusals, graceful := b.graceful, output := b.output)
    requires !a.closing && a.accepted <= b.accepted && a.refusals <= b.refusals && (a.graceful ==> b.graceful)
    requires b.output ==> a.output || b.refusals > a.refusals
    ensures Fair(a, b)
  {
  }

  /** An answer was taken, which may be a fault not yet dealt with. */
  lemma AnsweredHeeds(a: Side, b: Side)
    requires !a.closing && b == a.(refusals := b.refusals, faults := b.faults, asked := b.asked, output := b.output)
    requires a.refusals <= b.refusals && b.faults <= a.faults && (a.asked ==> b.asked)
    ensures Heeds(a, b) && Justified(a, b)
    ensures b.faults == a.faults ==> Heeded(a, b)
    ensures (b.output ==> a.output || b.refusals > a.refusals) ==> Quiet(a, b)
  {
  }

  // ----- what the peer's frames come to

  /** Events up to the first Close: a session says nothing after it. */
  function ToldBySession(events: seq<Incoming>): seq<Incoming> {
    if events == [] then [] else if events[0] == Close then [Close] else [events[0]] + ToldBySession(events[1..])
  }

  function ToldOf(reading: Reading): seq<Incoming> {
    if reading.Data? then ToldBySession(reading.events) else []
  }

  /** What the session tells of several readings, up to the first Close; nothing when it has closed already. */
  function Told(readings: seq<Reading>, closed: bool): seq<Incoming> {
    if readings == [] || closed then []
    else ToldOf(readings[0]) + Told(readings[1..], Close in ToldOf(readings[0]))
  }

  lemma ToldFirst(reading: Reading, readings: seq<Reading>)
    ensures Told([reading] + readings, false) == ToldOf(reading) + Told(readings, Close in ToldOf(reading))
  {
    assert ([reading] + readings)[1..] == readings;
  }

  lemma ToldOnce(reading: Reading, closed: bool)
    ensures Told([reading], closed) == if closed then [] else ToldOf(reading)
  {
    assert [reading][1..] == [];
  }

  lemma {:induction false} ToldTogether(xs: seq<Reading>, ys: seq<Reading>, closed: bool)
    ensures Told(xs + ys, closed) == Told(xs, closed) + Told(ys, closed || Close in Told(xs, closed))
    decreases |xs|
  {
    hide ToldOf;
    if xs == [] || closed {
      assert [] + ys == ys;
      assert [] + Told(ys, closed) == Told(ys, closed);
    } else {
      var first := ToldOf(xs[0]);
      var rest := Told(xs[1..], Close in first);
      ToldFirst(xs[0], xs[1..] + ys);
      assert [xs[0]] + (xs[1..] + ys) == xs + ys;
      ToldTogether(xs[1..], ys, Close in first);
      var last := Told(ys, Close in first || Close in rest);
      assert Close in first + rest <==> Close in first || Close in rest;
      assert first + (rest + last) == (first + rest) + last;
    }
  }

  function Replies(events: seq<Incoming>): seq<bytes> {
    if events == [] then [] else (if events[0].Reply? then [events[0].frame] else []) + Replies(events[1..])
  }

  /** Messages and Closes call back. */
  function Calls(events: seq<Incoming>): nat {
    if events == [] then 0 else (if events[0].Reply? then 0 else 1) + Calls(events[1..])
  }

  /** From `a` to `b` the frames were appended in order, perhaps with other octets before, between and after them. */
  ghost predicate Woven(a: bytes, frames: seq<bytes>, b: bytes)
    decreases |frames|
  {
    if frames == [] then a <= b else exists m | a <= m :: Woven(m + frames[0], frames[1..], b)
  }

  lemma {:induction false} WovenOn(a: bytes, xs: seq<bytes>, b: bytes, ys: seq<bytes>, c: bytes)
    requires Woven(a, xs, b) && Woven(b, ys, c)
    ensures Woven(a, xs + ys, c)
    decreases |xs|
  {
    if xs == [] {
      assert xs + ys == ys;
      if ys != [] {
        var m :| b <= m && Woven(m + ys[0], ys[1..], c);
        assert a <= m;
      }
    } else {
      var m :| a <= m && Woven(m + xs[0], xs[1..], b);
      WovenOn(m + xs[0], xs[1..], b, ys, c);
      assert (xs + ys)[0] == xs[0] && (xs + ys)[1..] == xs[1..] + ys;
    }
  }

  lemma {:induction false} RepliesConcat(xs: seq<Incoming>, ys: seq<Incoming>)
    ensures Replies(xs + ys) == Replies(xs) + Replies(ys) && Calls(xs + ys) == Calls(xs) + Calls(ys)
  {
    if xs == [] {
      assert xs + ys == ys;
    } else {
      var first := if xs[0].Reply? then [xs[0].frame] else [];
      assert (xs + ys)[0] == xs[0] && (xs + ys)[1..] == xs[1..] + ys;
      RepliesConcat(xs[1..], ys);
      assert first + (Replies(xs[1..]) + Replies(ys)) == (first + Replies(xs[1..])) + Replies(ys);
    }
  }

  /**
   What acting on `events` in order comes to: the replies were accepted one after the other, every message and
   every Close made its callback besides those of writes, and a Close asked for the graceful end.
   */
  ghost predicate ActedOn(events: seq<Incoming>, a: Side, b: Side) {
    && Woven(a.accepted, Replies(events), b.accepted)
    && (b.scripts == 0 || b.scripts + b.log + Calls(events) <= a.scripts + a.log)
    && (Close in events ==> b.graceful)
  }

  lemma ActedOnNothing(a: Side, b: Side)
    requires Heeds(a, b)
    ensures ActedOn([], a, b)
  {
  }

  lemma ActedOnMore(xs: seq<Incoming>, ys: seq<Incoming>, a: Side, b: Side, c: Side)
    requires ActedOn(xs, a, b) && ActedOn(ys, b, c) && Heeds(b, c)
    ensures ActedOn(xs + ys, a, c)
  {
    RepliesConcat(xs, ys);
    WovenOn(a.accepted, Replies(xs), b.accepted, Replies(ys), c.accepted);
  }

  lemma ActedOnReply(frame: ControlFrame, a: Side, b: Side)
    requires Heeds(a, b) && a.accepted + frame <= b.accepted
    ensures ActedOn([Reply(frame)], a, b)
  {
    var e := [Reply(frame)];
    assert e[1..] == [] && Replies([]) == [] && Calls([]) == 0;
    assert Replies(e) == [frame] + Replies(e[1..]) == [frame] && Calls(e) == 0;
    assert Woven(a.accepted + [frame][0], [frame][1..], b.accepted);
  }

  lemma ActedOnOther(event: Incoming, a: Side, b: Side)
    requires Heeds(a, b) && !event.Reply? && (b.scripts == 0 || b.scripts + b.log < a.scripts + a.log)
    requires event == Close ==> b.graceful
    ensures ActedOn([event], a, b)
  {
    assert [event][1..] == [] && Replies([]) == [] && Calls([]) == 0;
    assert Replies([event]) == [] + Replies([event][1..]) == [] && Calls([event]) == 1;
  }

  /** Everything read from `a` to `b` was told to the session and acted on. */
  ghost predicate Acted(readings: seq<Reading>, a: Side, b: Side) {
    && a.taken <= b.taken <= |readings|
    && var told := Told(readings[a.taken..b.taken], a.sessionClosed);
       ActedOn(told, a, b) && b.sessionClosed == (a.sessionClosed || Close in told)
  }

  lemma ActedThen(readings: seq<Reading>, a: Side, b: Side, c: Side)
    requires Acted(readings, a, b) && Acted(readings, b, c) && Heeds(b, c)
    ensures Acted(readings, a, c)
  {
    hide ActedOn, Told, Heeds;
    var xs, ys := readings[a.taken..b.taken], readings[b.taken..c.taken];
    SlicesJoin(readings, a.taken, b.taken, c.taken);
    ToldTogether(xs, ys, a.sessionClosed);
    var told, more := Told(xs, a.sessionClosed), Told(ys, b.sessionClosed);
    assert Close in told + more <==> Close in told || Close in more;
    ActedOnMore(told, more, a, b, c);
  }

  /** Whoever reads nothing, or only for a session that has closed, has nothing to act on. */
  lemma NothingToAct(readings: seq<Reading>, a: Side, b: Side)
    requires Heeds(a, b) && b.taken <= |readings| && b.sessionClosed == a.sessionClosed
    requires a.taken == b.taken || a.sessionClosed
    ensures Acted(readings, a, b)
  {
    assert a.taken == b.taken ==> readings[a.taken..b.taken] == [];
    ActedOnNothing(a, b);
  }

  /** One reading was taken, and its events acted on. */
  lemma ActedOnce(readings: seq<Reading>, a: Side, b: Side)
    requires a.taken < |readings| && b.taken == a.taken + 1
    requires var told := if a.sessionClosed then [] else ToldOf(readings[a.taken]);
             ActedOn(told, a, b) && b.sessionClosed == (a.sessionClosed || Close in told)
    ensures Acted(readings, a, b)
  {
    assert readings[a.taken..b.taken] == [readings[a.taken]];
    ToldOnce(readings[a.taken], a.sessionClosed);
  }
}
