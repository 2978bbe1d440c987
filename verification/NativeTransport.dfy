/**
 The owned transport: submission, flushing, staging into TLS, backpressure, cancellation
 and the graceful end. The descriptor, the TLS library and the input answer as they like;
 JavaScript runs whenever a callback is made, and may submit or terminate.
 */
module NativeTransport {
  import opened Octets
  import opened WritePipeline
  import opened TransportWorld
  import W = WriteRequests

  datatype Action = SubmitParts(parts: seq<bytes>) | TerminateNow

  datatype Result = Synchronous | Asynchronous | BadDescriptor | Invalid | TooLarge | IOError

  const TLS_COALESCE_PREFIX: nat := 4 * 1024
  const TLS_FULL_COALESCE_LIMIT: nat := 16 * 1024 + 14

  /** Makes the request for some parts; for TLS its parts are joined, or the first octets of them. Nothing is lost. */
  method PrepareRequest(parts: seq<bytes>, tls: bool) returns (ok: bool, request: W.WriteRequest)
    ensures ok <==> parts != [] && |Concat(parts)| <= W.SIZE_MAX
    ensures ok ==> fresh(request) && fresh(request.inlineParts) && fresh(request.inlineBytes) && request.sent == 0
    ensures ok ==> var prepared := request.Prepared(Concat(parts)); prepared
    ensures ok && tls && |Concat(parts)| <= TLS_FULL_COALESCE_LIMIT ==> request.partCount == 1
  {
    request := FillRequest(parts);
    ok := request.Prepare(Concat(parts));
    if ok && tls {
      if request.bytesTotal <= TLS_FULL_COALESCE_LIMIT {
        ok := request.Flatten(Concat(parts));
      } else {
        ok := request.CoalescePrefix(TLS_COALESCE_PREFIX, Concat(parts));
      }
    }
  }

  method FillRequest(parts: seq<bytes>) returns (request: W.WriteRequest)
    ensures fresh(request) && fresh(request.inlineParts) && fresh(request.inlineBytes) && request.sent == 0
    ensures request.partCount == |parts| && var rewound := request.Rewound(Concat(parts)); rewound
  {
    request := new W.WriteRequest();
    var i := 0;
    assert parts[..0] == [];
    while i < |parts|
      invariant i <= |parts| && request.partCount == i && request.sent == 0
      invariant fresh(request) && fresh(request.inlineParts) && fresh(request.inlineBytes)
      invariant var open := request.Open(Concat(parts[..i])); open
    {
      OneMorePart(parts, i);
      request.AddInput(parts[i], 0, |parts[i]|, Concat(parts[..i]));
      i := i + 1;
    }
    assert parts[..i] == parts;
    request.Rewind(Concat(parts));
  }

  lemma OneMorePart(parts: seq<bytes>, i: nat)
    requires i < |parts|
    ensures Concat(parts[..i + 1]) == Concat(parts[..i]) + parts[i][0..|parts[i]|]
  {
    assert parts[..i + 1] == parts[..i] + [parts[i]] && parts[i][0..|parts[i]|] == parts[i];
    W.ConcatSnoc(parts[..i], parts[i]);
  }

  class Transport {
    const tls: bool
    const maxBackpressure: nat
    /** What reading finds, now and later. */
    const readings: seq<Reading>

    var queue: seq<Request>
    var nextId: nat
    var pendingBytes: nat
    var tlsCiphertext: bytes
    var tlsCiphertextOffset: nat
    var tlsCommittedPlaintext: nat
    var writeBIO: bytes

    var active: bool
    var closing: bool
    var flushingWrites: bool
    var reportingError: bool
    var sessionClosed: bool
    var pendingClose: bool
    var gracefulCloseRequested: bool
    var tlsWriteBlockedOnRead: bool
    var tlsShutdownPending: bool
    var tlsShutdownGenerated: bool
    var tlsProcessingInput: bool

    /** The world's answers to come; when they run out the descriptor blocks and nobody calls back. */
    var descriptor: seq<Answer>
    var library: seq<TLSAnswer>
    var scripts: seq<seq<Action>>
    /** How many readings were taken. */
    var taken: nat

    /** All octets ever accepted, which gives each request its place; the other histories are ghosts. */
    var accepted: bytes
    ghost var wire: bytes
    ghost var passed: bytes
    ghost var produced: bytes
    ghost var marks: seq<nat>
    ghost var handed: nat
    ghost var log: seq<Completion>
    ghost var promised: set<nat>
    ghost var ending: Ending
    /** The library was asked to shut down, whatever it answered. */
    ghost var shutdownAsked: bool
    /** How often descriptor or library did not take all they were offered, and how often before the last flush. */
    ghost var refusals: nat
    ghost var refusalsBefore: nat

    ghost function Now(): Pipe
      reads `queue, `pendingBytes, `tlsCommittedPlaintext, `tlsCiphertext, `tlsCiphertextOffset, `writeBIO
      reads `closing, `wire, `accepted, `passed, `produced, `marks, `handed, `log, `promised, `nextId, `ending
    {
      Pipe(tls, maxBackpressure, queue, pendingBytes, tlsCommittedPlaintext, Held(), writeBIO,
           closing, wire, accepted, passed, produced, marks, handed, log, promised, nextId, ending)
    }

    /** Ciphertext taken from the library but not sent. */
    ghost function Held(): bytes
      reads `tlsCiphertext, `tlsCiphertextOffset
    {
      if tlsCiphertextOffset <= |tlsCiphertext| then tlsCiphertext[tlsCiphertextOffset..] else []
    }

    lemma NowTells()
      ensures Now().queue == queue && Now().closing == closing && Now().nextId == nextId && Now().tls == tls
      ensures Now().pending == pendingBytes && Now().committed == tlsCommittedPlaintext
      ensures Now().log == log && Now().ending == ending
      ensures Now().promised == promised && Now().accepted == accepted && Now().handed == handed
    {
    }

    ghost function There(): Side
      reads `closing, `ending, `accepted, `handed, `scripts, `log, `descriptor, `library, `refusals, `taken
      reads `sessionClosed, `gracefulCloseRequested, `shutdownAsked, `tlsCiphertext, `tlsCiphertextOffset, `writeBIO
    {
      Side(closing, ending, accepted, handed, maxBackpressure, tls,
           |scripts|, |log|, Faults(), refusals, taken,
           sessionClosed, gracefulCloseRequested, shutdownAsked, HasTLSOutput())
    }

    /** Answers still to come after which the transport cannot go on. */
    ghost function Faults(): nat
      reads `descriptor, `library, `taken
    {
      BrokenIn(descriptor) + RefusedIn(library) + EndsIn(readings, taken)
    }

    ghost predicate Valid()
      reads `queue, `pendingBytes, `tlsCommittedPlaintext, `tlsCiphertext, `tlsCiphertextOffset, `writeBIO
      reads `closing, `wire, `accepted, `passed, `produced, `marks, `handed, `log, `promised, `nextId, `ending
      reads `gracefulCloseRequested, `pendingClose, `sessionClosed, `tlsShutdownGenerated, `shutdownAsked
      reads `refusals, `refusalsBefore, `taken
    {
      && tlsCiphertextOffset <= |tlsCiphertext|
      && (gracefulCloseRequested || pendingClose ==> sessionClosed)
      && (tlsShutdownGenerated ==> shutdownAsked)
      && refusalsBefore <= refusals && taken <= |readings|
      && Inv(Now())
    }

    /** Bounds how much can still happen. */
    ghost function Fuel(): nat
      reads `scripts, `taken
    {
      |scripts| + if taken <= |readings| then |readings| - taken else 0
    }

    /** What every activity promises, whatever callbacks it makes. */
    twostate predicate Proceeds()
      reads this
    {
      Goes() && Justified(old(There()), There())
    }

    /** The same, except that it may close the transport for reasons of its own. */
    twostate predicate Goes()
      reads this
    {
      Keeps() && Undisturbed() && Quiet(old(There()), There())
    }

    /** The same as `Proceeds`, of those who read input and let TLS answer it. */
    twostate predicate Reads()
      reads this
    {
      Keeps() && Justified(old(There()), There())
    }

    twostate predicate Keeps()
      reads this
    {
      && Valid() && Later(old(Now()), Now()) && Beside()
      && Heeds(old(There()), There()) && Heeded(old(There()), There())
      && (old(Pushing()) ==> Pushing()) && (old(Leaving()) ==> Leaving())
    }

    /** Input is left alone, unless the session has closed: it is read to find the end of it, and TLS alone does so. */
    twostate predicate Undisturbed()
      reads this
    {
      && sessionClosed == old(sessionClosed)
      && (old(!sessionClosed || tlsProcessingInput || !tls) ==> taken == old(taken))
    }

    /** `Proceeds`, of what is not in the pipe. */
    twostate predicate Around()
      reads this
    {
      Beside() && Undisturbed() && Fair(old(There()), There())
    }

    twostate predicate Beside()
      reads this
    {
      && |scripts| <= old(|scripts|) && old(taken) <= taken <= |readings|
      && flushingWrites == old(flushingWrites) && active == old(active) && tlsProcessingInput == old(tlsProcessingInput)
      && (old(sessionClosed) ==> sessionClosed) && (old(gracefulCloseRequested) ==> gracefulCloseRequested)
      && old(refusals) <= refusals && old(refusalsBefore) <= refusalsBefore
      && (old(flushingWrites) ==> refusalsBefore == old(refusalsBefore))
    }

    /** Nothing is forgotten: when requests stay queued, the descriptor or the library refused octets during the last flush. */
    ghost predicate Pushing()
      reads `active, `closing, `flushingWrites, `queue, `refusals, `refusalsBefore
    {
      active && !closing && !flushingWrites && queue != [] ==> refusals > refusalsBefore
    }

    /** It went on as far as it could: all that was to be sent is, or octets were refused, or the connection has ended. */
    twostate predicate Pushed()
      reads this
    {
      PushedSince(old(refusals))
    }

    ghost predicate PushedSince(refused: nat)
      reads this
    {
      closing || refusals > refused || (queue == [] && !gracefulCloseRequested && (tls ==> !HasTLSOutput()))
    }

    /** A graceful end is not forgotten either: with nothing queued, only TLS output still to be sent holds it up. */
    ghost predicate Leaving()
      reads `closing, `flushingWrites, `gracefulCloseRequested, `queue, `tlsShutdownPending
    {
      !closing && !flushingWrites && gracefulCloseRequested && queue == [] ==> tls && tlsShutdownPending
    }

    constructor (tls: bool, maxBackpressure: nat, descriptor: seq<Answer>, library: seq<TLSAnswer>,
                 readings: seq<Reading>, scripts: seq<seq<Action>>)
      ensures AtRest() && !closing && !active && queue == [] && accepted == [] && wire == [] && taken == 0
    {
      hide Inv, Settled;
      this.tls, this.maxBackpressure, this.readings := tls, maxBackpressure, readings;
      this.descriptor, this.library, this.scripts, taken := descriptor, library, scripts, 0;
      queue, nextId, pendingBytes := [], 0, 0;
      tlsCiphertext, tlsCiphertextOffset, tlsCommittedPlaintext, writeBIO := [], 0, 0, [];
      active, closing, flushingWrites, reportingError, sessionClosed := false, false, false, false, false;
      pendingClose, gracefulCloseRequested, tlsWriteBlockedOnRead := false, false, false;
      tlsShutdownPending, tlsShutdownGenerated, tlsProcessingInput, shutdownAsked := false, false, false, false;
      wire, accepted, passed, produced, marks, handed := [], [], [], [], [0], 0;
      log, promised, ending := [], {}, Running;
      refusals, refusalsBefore := 0, 0;
      new;
      UnusedInv(tls, maxBackpressure);
      assert Now() == Unused(tls, maxBackpressure);
    }

    // ----- callbacks into JavaScript

    /** A callback: the next script runs to its end before the caller goes on. */
    method CallScript()
      requires var valid := Valid(); valid
      modifies this
      ensures var proceeds := Proceeds(); proceeds
      ensures old(closing) ==> Now() == old(Now())
      ensures |scripts| < old(|scripts|) || (|scripts| == 0 && Now() == old(Now()))
      ensures scripts == [] || |scripts| + |log| < old(|scripts| + |log|)
      decreases Fuel(), 1
    {
      hide Inv, Later, Now, There, Heeds, Heeded, Quiet, Justified;
      ghost var s, w := Now(), There();
      LaterItself(s);
      FairItself(w);
      if scripts != [] {
        NowTells();
        ThereTells();
        var script := NextScript();
        ghost var u := There();
        RunScript(script);
        ThereTells();
        ScriptRan(w, u, There());
        if s.closing {
          ClosedForGood(s, Now());
        }
      }
    }

    method NextScript() returns (script: seq<Action>)
      requires scripts != []
      modifies `scripts
      ensures script == old(scripts)[0] && scripts == old(scripts)[1..]
      ensures There() == old(There()).(scripts := |scripts|)
    {
      hide Faults;
      script := scripts[0];
      scripts := scripts[1..];
    }

    method RunScript(script: seq<Action>)
      requires var valid := Valid(); valid
      modifies this
      ensures var goes := Goes(); goes
      decreases Fuel(), 13
    {
      hide Inv, Later, Now, There, Heeds, Heeded, Quiet, Justified;
      ghost var s, w := Now(), There();
      LaterItself(s);
      FairItself(w);
      var i := 0;
      while i < |script|
        invariant i <= |script|
        invariant var goes := Goes(); goes
      {
        ghost var a, u := Now(), There();
        if script[i].TerminateNow? {
          CloseNow(Canceled, Forced);
        } else {
          var result := Submit(script[i].parts);
        }
        LaterOn(s, a, Now());
        HeedsOn(w, u, There());
        i := i + 1;
      }
    }

    // ----- closing

    method CancelWrites(status: Status, ghost p: Pipe)
      requires Valid() && status != Written && var canceling := Canceling(p, Now()); canceling
      modifies this
      ensures Valid() && queue == [] && var canceling := Canceling(p, Now()); canceling
      ensures ending == old(ending) && log == old(log) + Completions(old(queue), status)
      ensures var around := Around(); around
      decreases Fuel(), 2
    {
      hide Inv, Later, There, Heeds, Heeded, Quiet, Justified;
      ghost var w := There();
      FairItself(w);
      while queue != []
        invariant Valid() && closing && ending == old(ending) && var canceling := Canceling(p, Now()); canceling
        invariant log + Completions(queue, status) == old(log) + Completions(old(queue), status)
        invariant var around := Around(); around
        decreases |queue|
      {
        ghost var u := There();
        CancelNext(status, p);
        HeedsOn(w, u, There());
      }
    }

    /** Cancels the first request. */
    method CancelNext(status: Status, ghost p: Pipe)
      requires Valid() && status != Written && queue != [] && var canceling := Canceling(p, Now()); canceling
      modifies this
      ensures Valid() && queue == old(queue)[1..] && var canceling := Canceling(p, Now()); canceling
      ensures ending == old(ending) && log + Completions(queue, status) == old(log) + Completions(old(queue), status)
      ensures var around := Around(); around
      decreases Fuel(), 2, 0
    {
      hide Inv, Later, There, Heeds, Heeded, Quiet, Justified;
      ghost var w := There();
      FairItself(w);
      CanceledCanceling(p, Now(), status);
      CanceledOne(Now(), status);
      var deferred := Cancel(status, Now());
      if deferred {
        ghost var u := There();
        ThereTells();
        CallScript();
        ThereTells();
        CallbackRan(w, u, There());
      }
    }

    /** Takes the first request out of the queue and of the account, and notes its callback. */
    method Cancel(status: Status, ghost q: Pipe) returns (deferred: bool)
      requires q == Now() && queue != []
      modifies `queue, `pendingBytes, `log
      ensures Now() == Dequeued(q, status)
      ensures There() == if deferred then old(There()).(log := old(There()).log + 1) else old(There())
    {
      hide There, Held;
      var request := DequeueWrite();
      var remaining := Owed(request);
      pendingBytes := pendingBytes - if remaining < pendingBytes then remaining else pendingBytes;
      deferred := request.deferred;
      if deferred {
        NoteCallback(Completion(request.id, status, request.end));
      }
    }

    ghost method NoteCallback(callback: Completion)
      modifies `log
      ensures Now() == old(Now()).(log := old(log) + [callback])
      ensures There() == old(There()).(log := old(There()).log + 1)
    {
      hide Held, Faults;
      log := log + [callback];
    }

    method DequeueWrite() returns (request: Request)
      requires queue != []
      modifies `queue
      ensures request == old(queue)[0] && queue == old(queue)[1..]
    {
      request := queue[0];
      queue := queue[1..];
    }

    /** A graceful end is one that was asked for, with nothing queued and no ciphertext left. */
    ghost predicate MayEnd(why: Ending)
      reads this
    {
      why == Graceful ==> queue == [] && gracefulCloseRequested && (tls ==> shutdownAsked && !HasTLSOutput())
    }

    method CloseNow(status: Status, ghost why: Ending)
      requires status != Written && why != Running && MayEnd(why) && var valid := Valid(); valid
      modifies this
      ensures var goes := Goes(); goes
      ensures closing
      ensures !old(closing) ==>
                && ending == why && log == old(log) + Completions(old(queue), status)
                && accepted == old(accepted) && handed == old(handed)
      decreases Fuel(), 3
    {
      hide Inv, Later, Now, There, Completions, Heeds, Heeded, Quiet;
      LaterItself(Now());
      FairItself(There());
      if !closing {
        CloseOpen(status, why);
      }
    }

    /** Closes an open transport: everything queued is canceled, and what TLS held back is dropped. */
    method CloseOpen(status: Status, ghost why: Ending)
      requires !closing && status != Written && why != Running && MayEnd(why) && var valid := Valid(); valid
      modifies this
      ensures var goes := Goes(); goes
      ensures closing && ending == why && log == old(log) + Completions(old(queue), status)
      ensures accepted == old(accepted) && handed == old(handed)
      decreases Fuel(), 3, 0
    {
      hide Inv, Later, Now, There, Completions, Heeds, Heeded, Quiet, Justified, Canceling, MayEnd;
      ghost var p, w := Now(), There();
      NowTells();
      ThereTells();
      BeginClosing(why, p);
      ghost var u := There();
      CancelWrites(status, p);
      ghost var v := There();
      NowTells();
      GoneLater(p, Now());
      ForgetTLS(Now());
      NowTells();
      ThereTells();
      ClosedHeeds(w, u, v, There());
    }

    lemma ThereTells()
      ensures There().closing == closing && There().ending == ending && There().accepted == accepted
      ensures There().handed == handed && There().tls == tls && There().graceful == gracefulCloseRequested
      ensures There().asked == shutdownAsked && There().output == HasTLSOutput()
      ensures There().taken == taken && There().sessionClosed == sessionClosed && There().refusals == refusals
      ensures There().scripts == |scripts| && There().log == |log| && There().limit == maxBackpressure
    {
    }

    lemma NoOutputLeft()
      requires tlsCiphertextOffset <= |tlsCiphertext|
      ensures !HasTLSOutput() ==> Now().cipher == [] && Now().bio == []
    {
    }

    method BeginClosing(ghost why: Ending, ghost p: Pipe)
      requires p == Now() && !closing && why != Running && MayEnd(why) && var valid := Valid(); valid
      modifies `closing, `ending
      ensures closing && ending == why && There() == old(There()).(closing := true, ending := why)
      ensures (var valid := Valid(); valid) && var canceling := Canceling(p, Now()); canceling
      ensures why == Graceful ==> old(There()).graceful && (tls ==> old(There()).asked)
    {
      hide Inv, Now, There, Canceling;
      NowTells();
      NoOutputLeft();
      ThereTells();
      ClosedCanceling(p, why);
      MarkClosing(why, p);
    }

    method MarkClosing(ghost why: Ending, ghost p: Pipe)
      requires p == Now()
      modifies `closing, `ending
      ensures closing && ending == why
      ensures Now() == Closed(p, why) && There() == old(There()).(closing := true, ending := why)
    {
      hide Inv, Faults;
      closing := true;
      ending := why;
    }

    method ForgetTLS(ghost q: Pipe)
      requires q == Now()
      modifies `tlsCiphertext, `tlsCiphertextOffset, `tlsCommittedPlaintext
      ensures Now() == Gone(q) && tlsCiphertextOffset <= |tlsCiphertext|
      ensures There() == old(There()).(output := HasTLSOutput())
    {
      hide Inv, Faults;
      tlsCiphertext := [];
      tlsCiphertextOffset := 0;
      tlsCommittedPlaintext := 0;
    }

    /** A report is made, unless one is being made already. */
    method ReportTransportError()
      requires var valid := Valid(); valid
      modifies this
      ensures var proceeds := Proceeds(); proceeds
      ensures |scripts| < old(|scripts|) || Now() == old(Now())
      ensures !old(reportingError) ==> scripts == [] || |scripts| + |log| < old(|scripts| + |log|)
      decreases Fuel(), 4
    {
      hide Inv, Later, Now, There, Heeds, Heeded, Quiet, Justified;
      LaterItself(Now());
      FairItself(There());
      if !reportingError {
        SetReporting(true);
        CallScript();
        SetReporting(false);
      }
    }

    method SetReporting(value: bool)
      requires var valid := Valid(); valid
      modifies `reportingError
      ensures Now() == old(Now()) && There() == old(There()) && var valid := Valid(); valid
    {
      hide Inv;
      reportingError := value;
    }

    /** Reports, and closes by force; octets are neither accepted nor sent unless a script ran. */
    method Fail()
      requires var valid := Valid(); valid
      modifies this
      ensures var goes := Goes(); goes
      ensures closing
      ensures |scripts| < old(|scripts|) || (accepted == old(accepted) && handed == old(handed))
      ensures old(!closing && !reportingError) ==> scripts == [] || |scripts| + |log| < old(|scripts| + |log|)
      decreases Fuel(), 5
    {
      hide Inv, Later, Now, There, Heeded, Quiet, Justified;
      ghost var s, w := Now(), There();
      LaterItself(s);
      FairItself(w);
      if !closing {
        NowTells();
        ReportTransportError();
        ghost var a, u := Now(), There();
        NowTells();
        ThereTells();
        CloseNow(Canceled, Forced);
        ThereTells();
        LaterOn(s, a, Now());
        HeedsOn(w, u, There());
      }
    }

    /**
     Reports, with more pending than the limit allows; `a` is the state after the report. Unless its callback closed
     the transport, every request still queued fails for want of buffers.
     */
    method TerminateForBackpressure() returns (ghost a: Pipe)
      requires maxBackpressure != 0 && pendingBytes > maxBackpressure && !closing && var valid := Valid(); valid
      modifies this
      ensures var proceeds := Proceeds(); proceeds
      ensures closing && Later(old(Now()), a)
      ensures if a.closing then Now() == a else log == a.log + Completions(a.queue, NoBuffers)
      ensures |scripts| < old(|scripts|) || (scripts == [] && a == old(Now()))
      decreases Fuel(), 5
    {
      hide Inv, Later, Now, There, Heeds, Heeded, Quiet, Completions;
      ghost var s, w := Now(), There();
      NowTells();
      ThereTells();
      StreamConserved(s);
      CallScript();
      a := Now();
      ghost var u := There();
      NowTells();
      ThereTells();
      CloseNow(NoBuffers, Forced);
      ThereTells();
      LaterOn(s, a, Now());
      HeedsOn(w, u, There());
      if a.closing {
        ClosedForGood(a, Now());
      }
    }

    function BackpressureExceeded(): (exceeded: bool)
      reads this
    {
      maxBackpressure != 0 && pendingBytes > maxBackpressure
    }

    // ----- TLS output

    function HasTLSOutput(): bool
      reads `tlsCiphertext, `tlsCiphertextOffset, `writeBIO
    {
      tlsCiphertextOffset < |tlsCiphertext| || writeBIO != []
    }

    method SendRaw(data: bytes) returns (answer: Answer)
      requires data != []
      modifies `descriptor, `refusals
      ensures answer.Took? ==> 0 < answer.n <= |data|
      ensures refusals == old(refusals) + if answer == Took(|data|) then 0 else 1
      ensures There() == old(There()).(refusals := refusals, faults := There().faults)
      ensures if answer == Broken then There().faults < old(There()).faults else There().faults == old(There()).faults
    {
      hide Now, There;
      answer := NextAnswer();
      if answer.Took? {
        answer := if answer.n == 0 then Blocked else if answer.n > |data| then Took(|data|) else answer;
      }
      NoteRefusal(answer != Took(|data|));
    }

    /** When no more are to come the descriptor blocks. */
    method NextAnswer() returns (answer: Answer)
      modifies `descriptor
      ensures There() == old(There()).(faults := There().faults)
      ensures if answer == Broken then There().faults < old(There()).faults else There().faults == old(There()).faults
    {
      hide Now, Held;
      answer := Blocked;
      if descriptor != [] {
        answer := descriptor[0];
        descriptor := descriptor[1..];
      }
    }

    ghost method NoteRefusal(refused: bool)
      modifies `refusals
      ensures refusals == old(refusals) + if refused then 1 else 0
      ensures There() == old(There()).(refusals := refusals)
    {
      hide Now, Faults;
      refusals := refusals + if refused then 1 else 0;
    }

    /** The queue and the account are as they were. */
    twostate predicate Untouched()
      reads this
    {
      && queue == old(queue) && tlsCommittedPlaintext == old(tlsCommittedPlaintext) && pendingBytes == old(pendingBytes)
      && refusalsBefore == old(refusalsBefore) && accepted == old(accepted) && scripts == old(scripts) && taken == old(taken)
    }

    /** Sends what is held back, then what the library holds, until the descriptor will not take a whole batch. */
    method FlushMemoryBIOOutput() returns (ok: bool)
      requires tls && !closing && var valid := Valid(); valid
      modifies this
      ensures var proceeds := Proceeds(); proceeds
      ensures ok == !closing
      ensures ok ==> Untouched()
      ensures ok && HasTLSOutput() ==> refusals > old(refusals)
      decreases Fuel(), 6
    {
      hide Inv, Later, Now, There, Heeds, Heeded, Quiet, Justified;
      ghost var s, w := Now(), There();
      LaterItself(s);
      FairItself(w);
      if tlsCiphertextOffset < |tlsCiphertext| {
        ok := FlushHeld();
        if !ok || tlsCiphertextOffset < |tlsCiphertext| {
          return;
        }
      }
      ok := true;
      var more := true;
      while ok && more && writeBIO != []
        invariant var proceeds := Proceeds(); proceeds
        invariant ok == !closing && (ok ==> Untouched())
        invariant ok && more ==> tlsCiphertextOffset == |tlsCiphertext|
        invariant ok && !more ==> refusals > old(refusals)
        decreases ok, more, |writeBIO|
      {
        ghost var a, u := Now(), There();
        ok, more := FlushBatch();
        LaterOn(s, a, Now());
        HeedsOn(w, u, There());
      }
    }

    method FlushHeld() returns (ok: bool)
      requires tls && !closing && tlsCiphertextOffset < |tlsCiphertext| && var valid := Valid(); valid
      modifies this
      ensures var proceeds := Proceeds(); proceeds
      ensures ok == !closing
      ensures ok ==> Untouched()
      ensures ok && tlsCiphertextOffset < |tlsCiphertext| ==> refusals > old(refusals)
      decreases Fuel(), 6, 0
    {
      hide Inv, Later, Now, There, Heeds, Heeded, Quiet, Justified;
      ghost var w := There();
      ThereTells();
      var answer := SendOrFail(tlsCiphertext[tlsCiphertextOffset..]);
      ok := answer != Broken;
      if ok {
        TakeHeld(if answer.Took? then answer.n else 0);
        StepIsFair(w, There());
      }
    }

    /** Output is sent; when that meets a fault, it is reported and the transport closed by force. */
    method SendOrFail(data: bytes) returns (answer: Answer)
      requires data != [] && !closing && var valid := Valid(); valid
      modifies this
      ensures answer == Broken ==> closing && var proceeds := Proceeds(); proceeds
      ensures answer == Broken && old(!reportingError) ==> scripts == [] || |scripts| + |log| < old(|scripts| + |log|)
      ensures answer != Broken ==> Now() == old(Now()) && OnlyAnswered() && var valid := Valid(); valid
      ensures answer != Broken ==> There() == old(There()).(refusals := refusals)
      ensures answer != Broken ==> refusals == old(refusals) + if answer == Took(|data|) then 0 else 1
      ensures answer.Took? ==> 0 < answer.n <= |data|
      decreases Fuel(), 6, 0, 0
    {
      hide Inv, Later, Now, There, Heeds, Heeded, Quiet, Justified;
      ghost var w := There();
      ThereTells();
      answer := SendRaw(data);
      if answer == Broken {
        ghost var u := There();
        ThereTells();
        Fail();
        ThereTells();
        FaultIsFair(w, u, There());
      }
    }

    /** Everything is as it was, but for what is still to come. */
    twostate predicate OnlyAnswered()
      reads this
    {
      && Untouched() && closing == old(closing) && active == old(active) && flushingWrites == old(flushingWrites)
      && tlsProcessingInput == old(tlsProcessingInput) && sessionClosed == old(sessionClosed)
      && gracefulCloseRequested == old(gracefulCloseRequested) && tlsShutdownPending == old(tlsShutdownPending)
      && tlsCiphertext == old(tlsCiphertext) && tlsCiphertextOffset == old(tlsCiphertextOffset) && writeBIO == old(writeBIO)
    }

    method TakeHeld(n: nat)
      requires tls && !closing && n <= |tlsCiphertext| - tlsCiphertextOffset && var valid := Valid(); valid
      modifies `tlsCiphertext, `tlsCiphertextOffset, `wire
      ensures Later(old(Now()), Now()) && var valid := Valid(); valid
      ensures tlsCiphertextOffset < |tlsCiphertext| ==> n < old(|tlsCiphertext| - tlsCiphertextOffset)
      ensures There() == old(There()).(output := HasTLSOutput())
    {
      hide Inv, Later;
      ghost var held := tlsCiphertext[tlsCiphertextOffset..];
      assert held + writeBIO == held[..n] + (held[n..] + writeBIO);
      DrainedInv(Now(), held[..n], held[n..], writeBIO);
      HeldSent(n, held, Now());
    }

    method HeldSent(n: nat, ghost held: bytes, ghost p: Pipe)
      requires p == Now() && tlsCiphertextOffset <= |tlsCiphertext|
      requires held == tlsCiphertext[tlsCiphertextOffset..] && n <= |held|
      modifies `tlsCiphertext, `tlsCiphertextOffset, `wire
      ensures Now() == Drained(p, held[..n], held[n..], writeBIO) && tlsCiphertextOffset <= |tlsCiphertext|
      ensures tlsCiphertextOffset < |tlsCiphertext| ==> n < |held|
    {
      hide Inv, Faults;
      wire := Drained(p, held[..n], held[n..], writeBIO).wire;
      assert held[n..] == tlsCiphertext[tlsCiphertextOffset + n..];
      tlsCiphertextOffset := tlsCiphertextOffset + n;
      if tlsCiphertextOffset == |tlsCiphertext| {
        tlsCiphertext := [];
        tlsCiphertextOffset := 0;
      }
    }

    method FlushBatch() returns (ok: bool, more: bool)
      requires tls && !closing && tlsCiphertextOffset == |tlsCiphertext| && writeBIO != [] && var valid := Valid(); valid
      modifies this
      ensures var proceeds := Proceeds(); proceeds
      ensures ok == !closing
      ensures ok ==> Untouched()
      ensures ok && more ==> |writeBIO| < old(|writeBIO|) && tlsCiphertextOffset == |tlsCiphertext|
      ensures ok && !more ==> refusals > old(refusals)
      decreases Fuel(), 6, 0
    {
      hide Inv, Later, Now, There, Heeds, Heeded, Quiet, Justified;
      ghost var w := There();
      ThereTells();
      var size := if |writeBIO| < TLS_OUTPUT_BATCH then |writeBIO| else TLS_OUTPUT_BATCH;
      var batch, rest := writeBIO[..size], writeBIO[size..];
      var answer := SendOrFail(batch);
      ok, more := answer != Broken, answer == Took(size);
      if ok {
        TakeBatch(if answer.Took? then answer.n else 0, batch, rest);
        StepIsFair(w, There());
      }
    }

    method TakeBatch(sent: nat, batch: bytes, rest: bytes)
      requires tls && !closing && tlsCiphertextOffset == |tlsCiphertext| && var valid := Valid(); valid
      requires sent <= |batch| && batch + rest == writeBIO
      modifies `tlsCiphertext, `tlsCiphertextOffset, `writeBIO, `wire
      ensures Later(old(Now()), Now()) && writeBIO == rest && var valid := Valid(); valid
      ensures tlsCiphertextOffset == 0 && |tlsCiphertext| == |batch| - sent
      ensures There() == old(There()).(output := HasTLSOutput())
    {
      hide Inv, Later;
      assert [] + (batch + rest) == batch[..sent] + (batch[sent..] + rest);
      DrainedInv(Now(), batch[..sent], batch[sent..], rest);
      BatchSent(sent, batch, rest, Now());
    }

    /** A batch was taken out of the library; what was not sent of it is held back. */
    method BatchSent(sent: nat, batch: bytes, rest: bytes, ghost p: Pipe)
      requires p == Now() && sent <= |batch|
      modifies `tlsCiphertext, `tlsCiphertextOffset, `writeBIO, `wire
      ensures Now() == Drained(p, batch[..sent], batch[sent..], rest) && writeBIO == rest
      ensures tlsCiphertextOffset == 0 && |tlsCiphertext| == |batch| - sent
    {
      hide Inv, Faults;
      wire := Drained(p, batch[..sent], batch[sent..], rest).wire;
      writeBIO := rest;
      tlsCiphertext := batch[sent..];
      tlsCiphertextOffset := 0;
    }

    // ----- sending requests

    /** Offers the first request to the descriptor, which takes any part of it. */
    method WriteTCP() returns (written: int)
      requires queue != [] && queue[0].left != []
      modifies `descriptor, `refusals
      ensures written <= |queue[0].left|
      ensures old(refusals) <= refusals && (written == 0 ==> refusals > old(refusals))
      ensures There() == old(There()).(refusals := refusals, faults := There().faults)
      ensures if written < 0 then There().faults < old(There()).faults else There().faults == old(There()).faults
    {
      var answer := SendRaw(queue[0].left);
      match answer
      case Took(n) => written := n;
      case Blocked => written := 0;
      case Broken => written := -1;
    }

    /** While sending, a fault may have been met and the transport still be open; the caller will close it. */
    twostate predicate Sends(written: int)
      reads this
    {
      && Beside() && Undisturbed() && Heeds(old(There()), There()) && Justified(old(There()), There())
      && (if written < 0 then closing || There().faults < old(There()).faults
          else Heeded(old(There()), There()) && Quiet(old(There()), There()))
    }

    /**
     Feeds the first request to TLS, at most a batch; reports octets only once all ciphertext is out.
     When it reports some, they are those committed in `p`, about to be counted.
     */
    method WriteTLS() returns (written: int, ghost p: Pipe)
      requires tls && !closing && queue != [] && var valid := Valid(); valid
      modifies this
      ensures written <= 0 ==> Later(old(Now()), Now()) && var valid := Valid(); valid
      ensures written > 0 ==> var ready := Uncounted(p, written); ready
      ensures written > 0 ==> Later(old(Now()), p) && pendingBytes == old(pendingBytes)
      ensures 0 < written ==> written <= 60 * 1024 && !HasTLSOutput() && !closing
      ensures written == 0 ==> refusals > old(refusals)
      ensures var sends := Sends(written); sends
      decreases Fuel(), 7
    {
      hide Inv, Later, Now, There, Heeds;
      ghost var s, w := Now(), There();
      LaterItself(s);
      FairItself(w);
      ThereTells();
      if tlsCommittedPlaintext == 0 {
        NowTells();
        FirstOwed(s);
        var accepted := StageBatch();
        ThereTells();
        if !accepted {
          return -1, s;
        }
      }
      ghost var u := There();
      written, p := Settle(s);
      HeedsOn(w, u, There());
      ThereTells();
    }

    /** TLS has made ciphertext of the octets committed in `p`, it is all out, and they are no longer marked committed. */
    ghost predicate Uncounted(p: Pipe, n: nat)
      reads this
    {
      && tlsCiphertextOffset <= |tlsCiphertext| && (gracefulCloseRequested || pendingClose ==> sessionClosed)
      && (tlsShutdownGenerated ==> shutdownAsked)
      && refusalsBefore <= refusals && taken <= |readings|
      && Inv(p) && p.tls && !p.closing && p.queue != [] && p.committed == n > 0 && p.cipher == [] && p.bio == []
      && Now() == p.(committed := 0)
    }

    /** Pushes the ciphertext out; what was committed is reported once none is left. */
    method Settle(ghost s: Pipe) returns (written: int, ghost p: Pipe)
      requires tls && !closing && queue != [] && Later(s, Now()) && var valid := Valid(); valid
      modifies this
      ensures written <= 0 ==> Later(s, Now()) && var valid := Valid(); valid
      ensures written > 0 ==> var ready := Uncounted(p, written); ready
      ensures written > 0 ==> Later(s, p) && pendingBytes == old(pendingBytes) && written <= TLS_PLAINTEXT_BATCH
      ensures written < 0 ==> closing
      ensures written >= 0 ==> !closing && (HasTLSOutput() ==> written == 0 && refusals > old(refusals))
      ensures written == 0 ==> old(tlsCommittedPlaintext) == 0 || refusals > old(refusals)
      ensures var around := Around(); around
      decreases Fuel(), 7, 0
    {
      hide Inv, Later, Heeds, Heeded, Quiet, Justified, Faults;
      ghost var a := Now();
      var ok := FlushMemoryBIOOutput();
      p := Now();
      LaterOn(s, a, p);
      if !ok {
        return -1, p;
      }
      if tlsCommittedPlaintext == 0 || HasTLSOutput() {
        return 0, p;
      }
      BatchAtMost(p);
      written := tlsCommittedPlaintext;
      ForgetCommitted();
    }

    lemma BatchAtMost(p: Pipe)
      requires Inv(p) && !p.closing
      ensures p.committed <= TLS_PLAINTEXT_BATCH
    {
    }

    method ForgetCommitted()
      modifies `tlsCommittedPlaintext
      ensures Now() == old(Now()).(committed := 0) && There() == old(There())
    {
      hide Inv, Faults;
      tlsCommittedPlaintext := 0;
    }

    /** Asks the library to take plaintext until it will not, or the batch is full. */
    method StageBatch() returns (ok: bool)
      requires tls && !closing && queue != [] && tlsCommittedPlaintext == 0 && var valid := Valid(); valid
      modifies this
      ensures var stages := Stages(ok); stages
      ensures ok && old(queue[0].left != []) ==> tlsCommittedPlaintext > 0 || refusals > old(refusals)
      decreases Fuel(), 7, 0
    {
      hide Inv, Later, Now, There, Heeds;
      ghost var s, w := Now(), There();
      LaterItself(s);
      FairItself(w);
      var batchRemaining: nat := TLS_PLAINTEXT_BATCH;
      ok := true;
      var more := true;
      while ok && more && queue[0].left != [] && batchRemaining > 0
        invariant tlsCommittedPlaintext + batchRemaining == TLS_PLAINTEXT_BATCH
        invariant ok && more && tlsCommittedPlaintext == 0 ==> queue == old(queue)
        invariant ok && !more ==> refusals > old(refusals)
        invariant var stages := Stages(ok); stages
        decreases ok, more, batchRemaining
      {
        ghost var a, u := Now(), There();
        var n;
        ok, more, n := StageOnce(batchRemaining);
        batchRemaining := batchRemaining - n;
        LaterOn(s, a, Now());
        HeedsOn(w, u, There());
      }
    }

    /** Nothing but the library and the first request was touched; `ok` tells that the library did not fail. */
    twostate predicate Stages(ok: bool)
      reads this
    {
      && Later(old(Now()), Now()) && Valid() && Beside() && Undisturbed()
      && !closing && queue != [] && pendingBytes == old(pendingBytes) && Heeds(old(There()), There())
      && (if ok then There().faults == old(There()).faults else There().faults < old(There()).faults)
    }

    method StageOnce(limit: nat) returns (ok: bool, more: bool, n: nat)
      requires tls && !closing && queue != [] && queue[0].left != []
      requires 0 < limit && tlsCommittedPlaintext + limit == TLS_PLAINTEXT_BATCH && var valid := Valid(); valid
      modifies this
      ensures var stages := Stages(ok); stages
      ensures n <= limit && tlsCommittedPlaintext == old(tlsCommittedPlaintext) + n
      ensures ok && more ==> n > 0 && !tlsWriteBlockedOnRead
      ensures ok && !more ==> refusals > old(refusals) && WaitsAsTold()
      decreases Fuel(), 7, 0, 0
    {
      hide Inv, Later, Now, There, Heeds, Heeded, Quiet, Justified;
      ghost var w := There();
      ThereTells();
      ok, more, n := AskAndStage(limit);
      ThereTells();
      AnsweredHeeds(w, There());
    }

    method AskAndStage(limit: nat) returns (ok: bool, more: bool, n: nat)
      requires tls && !closing && queue != [] && queue[0].left != []
      requires 0 < limit && tlsCommittedPlaintext + limit == TLS_PLAINTEXT_BATCH && var valid := Valid(); valid
      modifies `library, `refusals
      modifies `queue, `tlsCommittedPlaintext, `tlsWriteBlockedOnRead, `writeBIO, `produced, `passed, `marks
      ensures Later(old(Now()), Now()) && queue != [] && n <= limit && var valid := Valid(); valid
      ensures tlsCommittedPlaintext == old(tlsCommittedPlaintext) + n && old(refusals) <= refusals
      ensures ok && more ==> n > 0 && !tlsWriteBlockedOnRead
      ensures ok && !more ==> refusals > old(refusals) && WaitsAsTold()
      ensures There() == old(There()).(refusals := refusals, faults := There().faults, output := HasTLSOutput())
      ensures if ok then There().faults == old(There()).faults else There().faults < old(There()).faults
    {
      hide Inv, Later, Now, There;
      var answer := AskLibrary();
      ok, more := answer != Refused, answer.Encrypted?;
      n := StageAnswer(limit, answer);
    }

    /** Writing waits for input exactly when the library's next answer was to say so. */
    twostate predicate WaitsAsTold()
      reads `tlsWriteBlockedOnRead
    {
      tlsWriteBlockedOnRead == (old(library) != [] && old(library)[0] == WantRead)
    }

    method StageAnswer(limit: nat, answer: TLSAnswer) returns (n: nat)
      requires tls && !closing && queue != [] && queue[0].left != []
      requires 0 < limit && tlsCommittedPlaintext + limit == TLS_PLAINTEXT_BATCH && var valid := Valid(); valid
      modifies `queue, `tlsCommittedPlaintext, `tlsWriteBlockedOnRead, `writeBIO, `produced, `passed, `marks
      ensures Later(old(Now()), Now()) && queue != [] && n <= limit && var valid := Valid(); valid
      ensures tlsCommittedPlaintext == old(tlsCommittedPlaintext) + n
      ensures if answer.Encrypted? then n > 0 && !tlsWriteBlockedOnRead else n == 0
      ensures answer == WantRead || answer == WantWrite ==> tlsWriteBlockedOnRead == (answer == WantRead)
      ensures There() == old(There()).(output := HasTLSOutput())
    {
      hide Inv, Later, Now, There;
      LaterItself(Now());
      ThereTells();
      n := 0;
      if answer.Encrypted? {
        n := StageSome(limit, answer.n, answer.text);
      } else if answer != Refused {
        BlockOnRead(answer == WantRead, Now());
      }
    }

    /** The library takes at least one octet and at most what it was offered. */
    method StageSome(limit: nat, taken: nat, text: bytes) returns (n: nat)
      requires tls && !closing && queue != [] && queue[0].left != []
      requires 0 < limit && tlsCommittedPlaintext + limit == TLS_PLAINTEXT_BATCH && var valid := Valid(); valid
      modifies `queue, `tlsCommittedPlaintext, `tlsWriteBlockedOnRead, `writeBIO, `produced, `passed, `marks
      ensures Later(old(Now()), Now()) && queue != [] && 0 < n <= limit && var valid := Valid(); valid
      ensures tlsCommittedPlaintext == old(tlsCommittedPlaintext) + n && !tlsWriteBlockedOnRead
      ensures There() == old(There()).(output := HasTLSOutput())
    {
      hide Inv, Later;
      ghost var s := Now();
      var offered := if |queue[0].left| < limit then |queue[0].left| else limit;
      n := if taken == 0 then 1 else if taken < offered then taken else offered;
      StagedInv(s, n, text);
      StageTLS(n, text, s);
    }

    method BlockOnRead(blocked: bool, ghost s: Pipe)
      requires s == Now()
      modifies `tlsWriteBlockedOnRead
      ensures Now() == s && There() == old(There()) && tlsWriteBlockedOnRead == blocked
    {
      hide Inv, Faults;
      tlsWriteBlockedOnRead := blocked;
    }

    method AskLibrary() returns (answer: TLSAnswer)
      modifies `library, `refusals
      ensures answer == if old(library) == [] then WantWrite else old(library)[0]
      ensures old(library) != [] ==> library == old(library)[1..]
      ensures refusals == old(refusals) + if answer.Encrypted? then 0 else 1
      ensures There() == old(There()).(refusals := refusals, faults := There().faults)
      ensures if answer == Refused then There().faults < old(There()).faults else There().faults == old(There()).faults
    {
      hide Now, There;
      answer := NextTLSAnswer();
      NoteRefusal(!answer.Encrypted?);
    }

    method NextTLSAnswer() returns (answer: TLSAnswer)
      modifies `library
      ensures answer == if old(library) == [] then WantWrite else old(library)[0]
      ensures old(library) != [] ==> library == old(library)[1..]
      ensures There() == old(There()).(faults := There().faults)
      ensures if answer == Refused then There().faults < old(There()).faults else There().faults == old(There()).faults
    {
      hide Now, Held;
      answer := WantWrite;
      if library != [] {
        answer := library[0];
        library := library[1..];
      }
    }

    /** The cursor of the first request moves on, and the library holds more ciphertext. */
    method StageTLS(n: nat, text: bytes, ghost p: Pipe)
      requires p == Now() && queue != [] && n <= |queue[0].left|
      modifies `queue, `tlsCommittedPlaintext, `tlsWriteBlockedOnRead, `writeBIO, `produced, `passed, `marks
      ensures Now() == Staged(p, n, text) && !tlsWriteBlockedOnRead
    {
      hide Inv, Faults;
      NoteStaged(n, text, p);
      tlsWriteBlockedOnRead := false;
      queue := queue[0 := queue[0].(left := queue[0].left[n..])];
      tlsCommittedPlaintext := tlsCommittedPlaintext + n;
      writeBIO := writeBIO + text;
    }

    ghost method NoteStaged(n: nat, text: bytes, p: Pipe)
      requires p == Now() && p.queue != [] && n <= |p.queue[0].left|
      modifies `produced, `passed, `marks
      ensures var q := Staged(p, n, text); Now() == p.(produced := q.produced, passed := q.passed, marks := q.marks)
    {
      var q := Staged(p, n, text);
      passed, marks, produced := q.passed, q.marks, q.produced;
    }

    method CommitTLS(n: nat, ghost p: Pipe)
      requires var ready := Uncounted(p, n); ready
      modifies `queue, `pendingBytes, `handed
      ensures n <= p.pending && Now() == Committed(p) && There() == old(There()).(handed := handed)
    {
      hide Inv, There, Held;
      FirstOwed(p);
      queue := queue[0 := queue[0].(sent := queue[0].sent + n)];
      pendingBytes := pendingBytes - if n < pendingBytes then n else pendingBytes;
      SetHanded(|passed|);
    }

    method AdvanceTCP(n: nat, ghost p: Pipe)
      requires p == Now() && queue != [] && n <= |queue[0].left| && n <= pendingBytes
      modifies `queue, `pendingBytes, `wire, `passed, `handed
      ensures Now() == SentTCP(p, n) && There() == old(There()).(handed := handed)
    {
      hide There, Held;
      ghost var q := SentTCP(p, n);
      AdvanceHead(n, p);
      wire, passed := q.wire, q.passed;
      SetHanded(q.handed);
    }

    method AdvanceHead(n: nat, ghost p: Pipe)
      requires p == Now() && queue != [] && n <= |queue[0].left| && n <= pendingBytes
      modifies `queue, `pendingBytes
      ensures var q := SentTCP(p, n); Now() == p.(queue := q.queue, pending := q.pending)
    {
      hide There;
      queue := queue[0 := queue[0].(left := queue[0].left[n..], sent := queue[0].sent + n)];
      pendingBytes := pendingBytes - if n < pendingBytes then n else pendingBytes;
    }

    ghost method SetHanded(n: nat)
      modifies `handed
      ensures Now() == old(Now()).(handed := n) && There() == old(There()).(handed := n)
    {
      handed := n;
    }

    /** The first request is done: it leaves the queue, and its callback is made if one was promised. */
    method CompleteHeadWrite(ghost p: Pipe)
      requires Finishing(p, Now()) && Calm(p) && refusalsBefore <= refusals && taken <= |readings|
      requires tlsCiphertextOffset <= |tlsCiphertext| && (gracefulCloseRequested || pendingClose ==> sessionClosed)
      requires tlsShutdownGenerated ==> shutdownAsked
      modifies this
      ensures Later(p, Now()) && var valid := Valid(); valid
      ensures old(queue) != [] && var completed := Completed(old(Now()), Now()); completed
      ensures var around := Around(); around
      ensures Fuel() < old(Fuel()) || pendingBytes == old(pendingBytes)
      decreases Fuel(), 8
    {
      hide Inv, Later, Finishing, Calm, Completed, Now, There, Dequeued, Owed, Heeds, Heeded, Quiet, Justified;
      ghost var m, w := Now(), There();
      FairItself(w);
      NowTells();
      FinishedInv(p, m);
      ghost var q := Dequeued(m, Written);
      var deferred := TakeHead(m);
      NowTells();
      if deferred {
        ghost var u := There();
        ThereTells();
        CallScript();
        ThereTells();
        CallbackRan(w, u, There());
        NowTells();
        LaterOn(p, q, Now());
        CompletedStays(m, q, Now());
      }
    }

    /** Takes the first request out of the queue, all of it written, and notes its callback. */
    method TakeHead(ghost m: Pipe) returns (deferred: bool)
      requires m == Now() && queue != [] && Owed(queue[0]) == 0
      modifies `queue, `log
      ensures Now() == Dequeued(m, Written) && deferred == m.queue[0].deferred
      ensures There() == if deferred then old(There()).(log := old(There()).log + 1) else old(There())
    {
      hide There, Held;
      var request := DequeueWrite();
      deferred := request.deferred;
      if deferred {
        NoteCallback(Completion(request.id, Written, request.end));
      }
    }

    // ----- flushing

    /**
     Writes requests in order until the queue is empty, the descriptor blocks or the transport closes; nothing is
     left queued or held back but what was refused meanwhile.
     */
    method FlushWrites()
      requires Calm(Now()) && var valid := Valid(); valid
      modifies this
      ensures var proceeds := Proceeds(); proceeds
      ensures old(active && !closing && !flushingWrites) ==> Pushing() && refusalsBefore >= old(refusals) && Pushed()
      decreases Fuel(), 11
    {
      hide Inv, Later, Calm, Now, There, Heeds, Heeded, Quiet, Justified;
      LaterItself(Now());
      FairItself(There());
      if !flushingWrites && !closing && active {
        StartFlush();
      }
    }

    /** Nothing of a new request is passed on while ciphertext is held back. */
    method StartFlush()
      requires active && !closing && !flushingWrites && Calm(Now()) && var valid := Valid(); valid
      modifies this
      ensures var proceeds := Proceeds(); proceeds
      ensures Pushing() && refusalsBefore >= old(refusals) && Pushed()
      decreases Fuel(), 11, 1
    {
      hide Inv, Later, Calm, Now, There, Heeds, Heeded, Justified;
      ghost var s, w := Now(), There();
      LaterItself(s);
      FairItself(w);
      NoteFlush();
      var ready := true;
      if tls {
        ghost var a := Now();
        var ok := FlushMemoryBIOOutput();
        LaterOn(s, a, Now());
        ready := ok && !HasTLSOutput();
      }
      if ready {
        ghost var u := There();
        ThereTells();
        FlushAll(s);
        ThereTells();
        HeedsOn(w, u, There());
      }
    }

    /** With no ciphertext held back. */
    method FlushAll(ghost s: Pipe)
      requires active && !closing && !flushingWrites && Calm(s) && Later(s, Now()) && var valid := Valid(); valid
      modifies this
      ensures Later(s, Now()) && var valid := Valid(); valid
      ensures var around := Around(); around
      ensures Pushing() && Leaving() && (closing || refusals > old(refusalsBefore) || (queue == [] && !gracefulCloseRequested))
      decreases Fuel(), 11, 0
    {
      hide Inv, Later, Calm, Now, There, Heeds, Heeded, Quiet, Justified;
      ghost var w := There();
      SetFlushing(true);
      var written := FlushQueue(s);
      SetFlushing(false);
      ghost var a, u := Now(), There();
      ThereTells();
      if written < 0 {
        Fail();
        LaterOn(s, a, Now());
        ThereTells();
        FaultIsFair(w, u, There());
      } else if queue == [] {
        MaybeFinishPeerClose();
        LaterOn(s, a, Now());
        HeedsOn(w, u, There());
      }
    }

    /** Turn after turn, until the queue is empty, octets are refused or the transport closes. */
    method FlushQueue(ghost s: Pipe) returns (written: int)
      requires flushingWrites && Calm(s) && Later(s, Now()) && var valid := Valid(); valid
      modifies this
      ensures Later(s, Now()) && var valid := Valid(); valid
      ensures var sends := Sends(written); sends
      ensures written > 0 ==> queue == [] || closing
      ensures written == 0 ==> refusals > old(refusals)
      decreases Fuel(), 10
    {
      hide Inv, Later, Calm, Now, There, Heeds, Heeded, Quiet, Justified;
      ghost var w := There();
      FairItself(w);
      written := 1;
      while written > 0 && queue != [] && !closing
        invariant Later(s, Now()) && var valid := Valid(); valid
        invariant var sends := Sends(written); sends
        invariant written == 0 ==> refusals > old(refusals)
        decreases written > 0, Fuel(), pendingBytes
      {
        ghost var u := There();
        written := FlushOnce(s);
        HeedsOn(w, u, There());
        FaultsAdd(w, u, There());
      }
    }

    lemma FaultsAdd(a: Side, b: Side, c: Side)
      requires Heeds(a, b) && Heeds(b, c)
      ensures c.faults < b.faults ==> c.faults < a.faults
    {
    }

    ghost method NoteFlush()
      requires var valid := Valid(); valid
      modifies `refusalsBefore
      ensures refusalsBefore == refusals && Now() == old(Now()) && There() == old(There()) && var valid := Valid(); valid
    {
      hide Inv;
      refusalsBefore := refusals;
    }

    method SetFlushing(value: bool)
      requires var valid := Valid(); valid
      modifies `flushingWrites
      ensures flushingWrites == value && Now() == old(Now()) && There() == old(There()) && var valid := Valid(); valid
    {
      hide Inv;
      flushingWrites := value;
    }

    /** One turn: part of the first request is written and counted. */
    method FlushOnce(ghost s: Pipe) returns (written: int)
      requires !closing && queue != [] && flushingWrites && Calm(s) && Later(s, Now()) && var valid := Valid(); valid
      modifies this
      ensures Later(s, Now()) && var valid := Valid(); valid
      ensures var sends := Sends(written); sends
      ensures written > 0 ==> Fuel() < old(Fuel()) || pendingBytes < old(pendingBytes)
      ensures written == 0 ==> refusals > old(refusals)
      decreases Fuel(), 10, 1
    {
      hide Inv, Later, Calm, Now, There, Heeds, Heeded, Quiet, Justified;
      ghost var p := Now();
      if tls {
        ghost var w := There();
        written, p := WriteTLS();
        if written > 0 {
          LaterOn(s, old(Now()), p);
          CalmStays(s, p);
          ghost var u := There();
          CountTLS(written, p);
          LaterOn(s, p, Now());
          HeedsOn(w, u, There());
        } else {
          LaterOn(s, old(Now()), Now());
        }
      } else {
        written := FlushOnceTCP(s);
      }
    }

    method FlushOnceTCP(ghost s: Pipe) returns (written: int)
      requires !tls && !closing && queue != [] && Calm(s) && Later(s, Now()) && var valid := Valid(); valid
      modifies this
      ensures Later(s, Now()) && var valid := Valid(); valid
      ensures var sends := Sends(written); sends
      ensures written > 0 ==> Fuel() < old(Fuel()) || pendingBytes < old(pendingBytes)
      ensures written == 0 ==> refusals > old(refusals)
      decreases Fuel(), 10, 0
    {
      hide Inv, Later, Calm, Now, There;
      ghost var p, w := Now(), There();
      ThereTells();
      NowTells();
      FirstOwed(p);
      written := WriteTCP();
      if written > 0 {
        ghost var u := There();
        CalmStays(s, p);
        CountTCP(written, p);
        LaterOn(s, p, Now());
        HeedsOn(w, u, There());
      }
    }

    method CountTLS(written: nat, ghost p: Pipe)
      requires Calm(p) && !closing && var ready := Uncounted(p, written); ready
      modifies this
      ensures Later(p, Now()) && var valid := Valid(); valid
      ensures var around := Around(); around
      ensures Fuel() < old(Fuel()) || pendingBytes < old(pendingBytes)
      decreases Fuel(), 9
    {
      hide Inv, Later, Calm, There, Heeds, Heeded, Quiet, Justified;
      ghost var w := There();
      ThereTells();
      FirstOwed(p);
      CommitTLS(written, p);
      ghost var u := There();
      StepIsFair(w, u);
      if Owed(queue[0]) == 0 {
        CompleteHeadWrite(p);
        HeedsOn(w, u, There());
      } else {
        CommittedInv(p);
      }
    }

    method CountTCP(written: nat, ghost p: Pipe)
      requires Calm(p) && p == Now() && !tls && !closing && queue != [] && 0 < written <= |queue[0].left|
      requires var valid := Valid(); valid
      modifies this
      ensures Later(p, Now()) && var valid := Valid(); valid
      ensures var around := Around(); around
      ensures Fuel() < old(Fuel()) || pendingBytes < old(pendingBytes)
      decreases Fuel(), 9
    {
      hide Inv, Later, Calm, There, Heeds, Heeded, Quiet, Justified;
      ghost var w := There();
      ThereTells();
      FirstOwed(p);
      AdvanceTCP(written, p);
      ghost var u := There();
      StepIsFair(w, u);
      if Owed(queue[0]) == 0 {
        CompleteHeadWrite(p);
        HeedsOn(w, u, There());
      } else {
        SentTCPInv(p, written);
      }
    }

    // ----- the graceful end

    /** Tells the application of the peer's Close, once, and ends the connection when nothing is left to write. */
    method MaybeFinishPeerClose()
      requires var valid := Valid(); valid
      modifies this
      ensures var proceeds := Proceeds(); proceeds
      ensures Leaving() && (old(pendingClose) && !closing ==> gracefulCloseRequested)
      ensures !closing && gracefulCloseRequested && queue == [] ==> refusals > old(refusals)
      ensures old(pendingClose && !closing) ==> scripts == [] || |scripts| + |log| < old(|scripts| + |log|)
      decreases Fuel(), 9
    {
      hide Inv, Later, Now, There, Heeded, Quiet, Justified;
      ghost var s, w := Now(), There();
      LaterItself(s);
      FairItself(w);
      ThereTells();
      if closing {
        return;
      }
      if pendingClose {
        TellOfClose();
      }
      if gracefulCloseRequested {
        ghost var a, u := Now(), There();
        ThereTells();
        PerformTLSShutdown();
        ThereTells();
        LaterOn(s, a, Now());
        HeedsOn(w, u, There());
      }
    }

    /** The application hears of the peer's Close; from then on a graceful end is wanted. */
    method TellOfClose()
      requires pendingClose && !closing && var valid := Valid(); valid
      modifies this
      ensures Valid() && Later(old(Now()), Now()) && var around := Around(); around
      ensures (old(Pushing()) ==> Pushing()) && gracefulCloseRequested
      ensures scripts == [] || |scripts| + |log| < old(|scripts| + |log|)
      decreases Fuel(), 2
    {
      hide Inv, Later, Now, There, Heeds, Heeded, Quiet, Justified;
      ghost var w := There();
      SetPendingClose(false);
      CallScript();
      ghost var u := There();
      RequestGracefulClose();
      HeedsOn(w, u, There());
    }

    method RequestGracefulClose()
      requires sessionClosed && var valid := Valid(); valid
      modifies `gracefulCloseRequested
      ensures gracefulCloseRequested && Now() == old(Now()) && var valid := Valid(); valid
      ensures Fair(old(There()), There())
    {
      hide Inv;
      gracefulCloseRequested := true;
    }

    /** Closes once the queue is empty; for TLS, once the closing alert is out as well. */
    method PerformTLSShutdown()
      requires var valid := Valid(); valid
      modifies this
      ensures var proceeds := Proceeds(); proceeds
      ensures closing && !old(closing) && ending == Graceful ==> old(queue) == []
      ensures Leaving() && (!closing && gracefulCloseRequested && queue == [] ==> refusals > old(refusals))
      decreases Fuel(), 8
    {
      hide Inv, Later, Now, There, Heeds, Heeded, Quiet;
      LaterItself(Now());
      FairItself(There());
      if !gracefulCloseRequested || closing || queue != [] {
        return;
      }
      if tls {
        ShutDownTLS();
      } else {
        CloseNow(Canceled, Graceful);
        ThereTells();
      }
    }

    /** The closing alert is made once all other output is out, and the connection ends once the alert is out. */
    method ShutDownTLS()
      requires tls && !closing && gracefulCloseRequested && queue == [] && var valid := Valid(); valid
      modifies this
      ensures var proceeds := Proceeds(); proceeds
      ensures closing || (tlsShutdownPending && refusals > old(refusals))
      decreases Fuel(), 8, 0
    {
      hide Inv, Later, Now, There, Heeds, Heeded, Quiet, Justified;
      ghost var s, w := Now(), There();
      LaterItself(s);
      FairItself(w);
      var drained := true;
      if !tlsShutdownGenerated {
        var ok := ProcessMemoryBIO();
        drained := ok && !HasTLSOutput();
      }
      if closing || !drained {
        SetShutdownPending(true);
        return;
      }
      ghost var a, u := Now(), There();
      FinishShutdown();
      LaterOn(s, a, Now());
      HeedsOn(w, u, There());
    }

    method SetShutdownPending(value: bool)
      requires var valid := Valid(); valid
      modifies `tlsShutdownPending
      ensures tlsShutdownPending == value && Now() == old(Now()) && There() == old(There()) && var valid := Valid(); valid
    {
      hide Inv;
      tlsShutdownPending := value;
    }

    /** The library is asked, once, for its closing alert, and may fail to give one. */
    method Shutdown() returns (generated: bool)
      requires tls && !closing && queue == [] && !HasTLSOutput() && var valid := Valid(); valid
      modifies `library, `refusals, `writeBIO, `produced, `tlsShutdownGenerated, `shutdownAsked
      ensures Later(old(Now()), Now()) && var valid := Valid(); valid
      ensures old(refusals) <= refusals && shutdownAsked
      ensures generated == (old(library) == [] || old(library)[0] != Refused) && (old(library) != [] ==> library == old(library)[1..])
      ensures generated ==> tlsShutdownGenerated && There().faults == old(There()).faults
      ensures !generated ==> !HasTLSOutput() && tlsShutdownGenerated == old(tlsShutdownGenerated)
      ensures There() == old(There()).(refusals := refusals, asked := true, output := HasTLSOutput(), faults := There().faults)
      ensures There().faults <= old(There()).faults
    {
      hide Inv, Later, Now;
      LaterItself(Now());
      var answer := AskLibrary();
      generated := answer != Refused;
      NoteShutdown(generated);
      if generated {
        ProduceText(if answer.Encrypted? then answer.text else []);
      }
    }

    method NoteShutdown(generated: bool)
      requires var valid := Valid(); valid
      modifies `tlsShutdownGenerated, `shutdownAsked
      ensures shutdownAsked && tlsShutdownGenerated == (generated || old(tlsShutdownGenerated))
      ensures Now() == old(Now()) && There() == old(There()).(asked := true) && var valid := Valid(); valid
    {
      hide Inv;
      shutdownAsked := true;
      if generated {
        tlsShutdownGenerated := true;
      }
    }

    method ProduceText(text: bytes)
      requires tls && !closing && var valid := Valid(); valid
      modifies `writeBIO, `produced
      ensures Later(old(Now()), Now()) && var valid := Valid(); valid
      ensures There() == old(There()).(output := HasTLSOutput())
    {
      hide Inv, Later;
      ProducedInv(Now(), text);
      Produce(text, Now());
    }

    method Produce(text: bytes, ghost p: Pipe)
      requires p == Now()
      modifies `writeBIO, `produced
      ensures Now() == Produced(p, text)
    {
      hide Inv, Faults;
      writeBIO := writeBIO + text;
      produced := produced + text;
    }

    /** Asks for the alert, unless it was made before, and sends it; then, or if there is none, the connection ends. */
    method FinishShutdown()
      requires tls && !closing && queue == [] && gracefulCloseRequested && var valid := Valid(); valid
      requires !tlsShutdownGenerated ==> !HasTLSOutput()
      modifies this
      ensures var proceeds := Proceeds(); proceeds
      ensures closing || (tlsShutdownPending && refusals > old(refusals))
      decreases Fuel(), 7
    {
      hide Inv, Later, Now, There, Heeds, Heeded, Quiet, Justified;
      ghost var s, w := Now(), There();
      LaterItself(s);
      FairItself(w);
      ThereTells();
      var generated := tlsShutdownGenerated;
      if !generated {
        generated := Shutdown();
        ThereTells();
        AnsweredHeeds(w, There());
      }
      if generated {
        SendAlert(s, w);
      } else {
        EndTLS(s, w);
      }
    }

    /** The alert was made; the connection ends once it is out. */
    method SendAlert(ghost s: Pipe, ghost w: Side)
      requires tls && !closing && queue == [] && gracefulCloseRequested && tlsShutdownGenerated && var valid := Valid(); valid
      requires Later(s, Now()) && Heeds(w, There()) && Heeded(w, There()) && Justified(w, There()) && !w.closing
      modifies this
      ensures Later(s, Now()) && Fair(w, There()) && var goes := Goes(); goes
      ensures closing || (tlsShutdownPending && refusals > old(refusals))
      decreases Fuel(), 7, 0
    {
      hide Inv, Later, Now, There, Justified;
      ghost var a, u := Now(), There();
      ThereTells();
      var ok := FlushMemoryBIOOutput();
      ThereTells();
      LaterOn(s, a, Now());
      HeedsOn(w, u, There());
      if ok && HasTLSOutput() {
        SetShutdownPending(true);
      } else if ok {
        ghost var b := Now();
        EndTLS(s, w);
        ThereTells();
        LaterOn(a, b, Now());
      }
    }

    method EndTLS(ghost s: Pipe, ghost w: Side)
      requires tls && !closing && queue == [] && gracefulCloseRequested && shutdownAsked && !HasTLSOutput() && var valid := Valid(); valid
      requires Later(s, Now()) && Heeds(w, There()) && !w.closing
      modifies this
      ensures closing && Later(s, Now()) && Fair(w, There()) && var goes := Goes(); goes
      decreases Fuel(), 4
    {
      hide Inv, Later, Now, There;
      ghost var a, u := Now(), There();
      SetShutdownPending(false);
      CloseNow(Canceled, Graceful);
      LaterOn(s, a, Now());
      HeedsOn(w, u, There());
      ThereTells();
    }

    // ----- input

    /** Reads what TLS can decrypt and gives it to the session, then pushes out ciphertext. */
    method ProcessMemoryBIO() returns (ok: bool)
      requires tls && !closing && var valid := Valid(); valid
      modifies this
      ensures var read := Reads(); read
      ensures ok == !closing
      ensures ok ==> (HasTLSOutput() ==> refusals > old(refusals)) && var acted := Acted(readings, old(There()), There()); acted
      ensures old(tlsProcessingInput) ==> taken == old(taken) && sessionClosed == old(sessionClosed)
      ensures ok && old(!tlsProcessingInput && taken < |readings|) ==> taken > old(taken) && ReadEnough()
      ensures ok && old(sessionClosed) ==> queue == old(queue)
      ensures Quiet(old(There()), There())
      decreases Fuel(), 7
    {
      hide Inv, Later, Now, There, Heeds, Heeded, Justified, Acted;
      ghost var s, w := Now(), There();
      LaterItself(s);
      FairItself(w);
      ThereTells();
      NothingToAct(readings, w, w);
      if !tlsProcessingInput {
        ReadInput();
        ThereTells();
        if closing {
          return false;
        }
      }
      ghost var a, u := Now(), There();
      ok := FlushMemoryBIOOutput();
      LaterOn(s, a, Now());
      HeedsOn(w, u, There());
      ThereTells();
      if ok {
        NothingMore(u);
        ActedThen(readings, w, u, There());
      }
    }

    /** Callbacks made meanwhile do not read. */
    method ReadInput()
      requires tls && !closing && !tlsProcessingInput && var valid := Valid(); valid
      modifies this
      ensures var read := Reads(); read
      ensures !closing && old(sessionClosed) ==> queue == old(queue)
      ensures !closing ==> var acted := Acted(readings, old(There()), There()); acted
      ensures !closing && old(taken) < |readings| ==> taken > old(taken) && ReadEnough()
      decreases Fuel(), 7, 0
    {
      hide Inv, Later, Now, There, Heeds, Heeded, Quiet, Justified, Acted;
      SetProcessing(true);
      ReadAll();
      SetProcessing(false);
    }

    /** Since `u` nothing was read. */
    lemma NothingMore(u: Side)
      requires Heeds(u, There()) && taken == u.taken <= |readings| && sessionClosed == u.sessionClosed
      ensures Acted(readings, u, There())
    {
      ThereTells();
      NothingToAct(readings, u, There());
    }

    method SetProcessing(value: bool)
      requires var valid := Valid(); valid
      modifies `tlsProcessingInput
      ensures tlsProcessingInput == value && Now() == old(Now()) && There() == old(There()) && var valid := Valid(); valid
    {
      hide Inv;
      tlsProcessingInput := value;
    }

    /** The last reading told that nothing more is to be had, or there is none. */
    ghost predicate ReadEnough()
      reads `taken
    {
      0 < taken <= |readings| &&
      match readings[taken - 1]
      case Data(_, _, last) => last || taken == |readings|
      case _ => true
    }

    /** Reads until nothing more can be decrypted. */
    method ReadAll()
      requires tls && !closing && tlsProcessingInput && var valid := Valid(); valid
      modifies this
      ensures var read := Reads(); read
      ensures !closing && old(sessionClosed) ==> queue == old(queue)
      ensures !closing ==> var acted := Acted(readings, old(There()), There()); acted
      ensures !closing && old(taken) < |readings| ==> taken > old(taken) && ReadEnough()
      decreases Fuel(), 6
    {
      hide Inv, Later, Now, There, Heeds, Heeded, Justified, Acted;
      ghost var s, w := Now(), There();
      LaterItself(s);
      FairItself(w);
      ThereTells();
      NothingMore(w);
      var more := true;
      while more && !closing && taken < |readings|
        invariant var read := Reads(); read
        invariant !closing && old(sessionClosed) ==> queue == old(queue)
        invariant !closing ==> var acted := Acted(readings, w, There()); acted
        invariant taken == old(taken) ==> more
        invariant !closing && !more ==> ReadEnough()
        invariant !closing && more && taken > old(taken) ==> readings[taken - 1].Data?
        decreases Fuel()
      {
        ghost var a, u := Now(), There();
        more := ReadOnce();
        LaterOn(s, a, Now());
        HeedsOn(w, u, There());
        if !closing {
          ActedThen(readings, w, u, There());
        }
      }
    }

    /** One answer of the library to being read from. */
    method ReadOnce() returns (more: bool)
      requires tls && !closing && taken < |readings| && tlsProcessingInput && var valid := Valid(); valid
      modifies this
      ensures var read := Reads(); read
      ensures !closing && old(sessionClosed) ==> queue == old(queue)
      ensures taken == old(taken) + 1
      ensures !closing ==> var acted := Acted(readings, old(There()), There()); acted
      ensures !closing ==> if more then readings[taken - 1].Data? else ReadEnough()
      decreases Fuel(), 5, 0
    {
      hide Inv, Later, Now, There, Heeds, Heeded, Quiet, Justified, Acted, ActedOn;
      ghost var s, w := Now(), There();
      LaterItself(s);
      ThereTells();
      var reading := TakeReading();
      more := Treat(reading, w);
      ThereTells();
      if !closing {
        ActedOnce(readings, w, There());
      }
    }

    /** Acts on a reading; `w` is before it was taken. */
    method Treat(reading: Reading, ghost w: Side) returns (more: bool)
      requires tls && !closing && tlsProcessingInput && var valid := Valid(); valid
      requires !w.closing && w.taken <= taken && There() == w.(taken := taken, faults := There().faults)
      requires if reading == EndOfInput || reading == Failure then There().faults < w.faults else There().faults == w.faults
      modifies this
      ensures var keeps := Keeps(); keeps
      ensures Heeds(w, There()) && Heeded(w, There()) && Justified(w, There())
      ensures taken == old(taken) && (!closing && old(sessionClosed) ==> queue == old(queue))
      ensures !closing ==> var consumed := Consumed(if old(sessionClosed) then [] else ToldOf(reading), w); consumed
      ensures !closing ==> if more then reading.Data? else reading.Nothing? || (reading.Data? && reading.last)
      decreases Fuel(), 16
    {
      hide Inv, Later, Now, There, Heeds, Heeded, Quiet, Justified, ActedOn;
      more := false;
      match reading {
        case Data(events, text, last) =>
          var ok := ReadData(events, text, w);
          more := ok && !last;
        case Nothing(text) =>
          ghost var u := There();
          ThereTells();
          ProduceText(text);
          TakenIsFair(w, There());
          TakenIsFair(u, There());
          ThereTells();
          ActedOnNothing(w, There());
        case EndOfInput =>
          HangUp(w);
        case Failure =>
          FailToRead(w);
      }
    }

    /** The next reading. */
    method TakeReading() returns (reading: Reading)
      requires taken < |readings| && !closing && var valid := Valid(); valid
      modifies `taken
      ensures reading == readings[old(taken)] && taken == old(taken) + 1
      ensures Now() == old(Now()) && var valid := Valid(); valid
      ensures There() == old(There()).(taken := taken, faults := There().faults)
      ensures if reading == EndOfInput || reading == Failure then There().faults < old(There()).faults
              else There().faults == old(There()).faults
    {
      hide Inv;
      reading := readings[taken];
      taken := taken + 1;
    }

    lemma TakenIsFair(a: Side, b: Side)
      requires !a.closing && b == a.(taken := b.taken, output := b.output) && a.taken <= b.taken
      ensures Heeds(a, b) && Heeded(a, b) && Justified(a, b)
    {
    }

    /** The peer closed the connection. */
    method HangUp(ghost w: Side)
      requires var valid := Valid(); valid
      requires !closing && !w.closing && There() == w.(taken := taken, faults := There().faults) && w.taken <= taken
      requires There().faults < w.faults && (tlsProcessingInput || !tls)
      modifies this
      ensures var goes := Goes(); goes
      ensures closing && Fair(w, There()) && taken == old(taken)
      decreases Fuel(), 4
    {
      hide Inv, Later, Now, There;
      ghost var u := There();
      CloseNow(Canceled, Forced);
      ThereTells();
      FaultIsFair(w, u, There());
    }

    /** Reading failed. */
    method FailToRead(ghost w: Side)
      requires var valid := Valid(); valid
      requires !closing && !w.closing && There() == w.(taken := taken, faults := There().faults) && w.taken <= taken
      requires There().faults < w.faults && (tlsProcessingInput || !tls)
      modifies this
      ensures var goes := Goes(); goes
      ensures old(!reportingError) ==> scripts == [] || |scripts| + |log| < old(|scripts| + |log|)
      ensures closing && Fair(w, There()) && taken == old(taken)
      decreases Fuel(), 6
    {
      hide Inv, Later, Now, There;
      ghost var u := There();
      Fail();
      ThereTells();
      FaultIsFair(w, u, There());
    }

    /** Decrypted octets, and what the library made for the peer while decrypting them; `w` is before they were taken. */
    method ReadData(events: seq<Incoming>, text: bytes, ghost w: Side) returns (ok: bool)
      requires tls && !closing && tlsProcessingInput && var valid := Valid(); valid
      requires !w.closing && There() == w.(taken := taken) && w.taken <= taken
      modifies this
      ensures var keeps := Keeps(); keeps
      ensures ok == !closing && taken == old(taken)
      ensures !closing && old(sessionClosed) ==> queue == old(queue)
      ensures Heeds(w, There()) && Heeded(w, There()) && Justified(w, There())
      ensures ok ==> var consumed := Consumed(if old(sessionClosed) then [] else ToldBySession(events), w); consumed
      decreases Fuel(), 15
    {
      hide Inv, Later, Now, There, Heeds, Heeded, Quiet, Justified, ActedOn;
      ghost var s, v := Now(), There();
      ThereTells();
      ProduceText(text);
      NowTells();
      ghost var a, u := Now(), There();
      TakenIsFair(w, u);
      TakenIsFair(v, u);
      ok := Consume(events);
      NowTells();
      LaterOn(s, a, Now());
      HeedsOn(w, u, There());
      HeedsOn(v, u, There());
      if ok {
        ghost var told := if old(sessionClosed) then [] else ToldBySession(events);
        ActedOnNothing(w, u);
        ActedOnMore([], told, w, u, There());
        assert [] + told == told;
      }
    }

    /** What the session told since `w` was acted on. */
    ghost predicate Consumed(told: seq<Incoming>, w: Side)
      reads this
    {
      ActedOn(told, w, There()) && sessionClosed == (w.sessionClosed || Close in told)
    }

    /** Acts on what the session tells, event after event; nothing, once it is closed. */
    method Consume(events: seq<Incoming>) returns (ok: bool)
      requires !closing && var valid := Valid(); valid
      modifies this
      ensures var keeps := Keeps(); keeps
      ensures ok == !closing
      ensures old(sessionClosed) ==> Now() == old(Now())
      ensures old(tlsProcessingInput || !tls) ==> taken == old(taken)
      ensures Fair(old(There()), There())
      ensures ok ==> var consumed := Consumed(if old(sessionClosed) then [] else ToldBySession(events), old(There())); consumed
      decreases Fuel(), 14
    {
      hide Inv, Later, Now, There, Heeds, Heeded, Quiet, Justified, ActedOn;
      ghost var s, w := Now(), There();
      LaterItself(s);
      FairItself(w);
      ActedOnNothing(w, w);
      ThereTells();
      if sessionClosed {
        return true;
      }
      var told := ToldBySession(events);
      SetSessionClosed(Close in told);
      ghost var u := There();
      ok := ActOn(told);
      HeedsOn(w, u, There());
      if ok {
        ActedOnMore([], told, w, u, There());
        assert [] + told == told;
      }
    }

    /** Event after event, until the transport is closed. */
    method ActOn(told: seq<Incoming>) returns (ok: bool)
      requires !closing && (Close in told ==> sessionClosed) && var valid := Valid(); valid
      modifies this
      ensures var proceeds := Proceeds(); proceeds
      ensures ok == !closing
      ensures ok ==> ActedOn(told, old(There()), There())
      decreases Fuel(), 14, 0
    {
      hide Inv, Later, Now, There, Heeds, Heeded, Quiet, Justified, ActedOn;
      ghost var s, w := Now(), There();
      LaterItself(s);
      FairItself(w);
      ActedOnNothing(w, w);
      var i := 0;
      while i < |told| && !closing
        invariant i <= |told|
        invariant var proceeds := Proceeds(); proceeds
        invariant !closing ==> ActedOn(told[..i], w, There())
      {
        ghost var a, u := Now(), There();
        assert told[..i + 1] == told[..i] + [told[i]];
        Dispatch(told[i]);
        LaterOn(s, a, Now());
        HeedsOn(w, u, There());
        if !closing {
          ActedOnMore(told[..i], [told[i]], w, u, There());
        }
        i := i + 1;
      }
      ok := !closing;
      assert told[..|told|] == told;
    }

    method SetSessionClosed(value: bool)
      requires !sessionClosed && var valid := Valid(); valid
      modifies `sessionClosed
      ensures sessionClosed == value && Now() == old(Now()) && var valid := Valid(); valid
      ensures There() == old(There()).(sessionClosed := value) && Fair(old(There()), There())
      ensures ActedOn([], old(There()), There())
    {
      hide Inv;
      sessionClosed := value;
    }

    /** A reply joins the accepted stream, a message makes a callback, a Close makes one and asks for the graceful end. */
    method Dispatch(event: Incoming)
      requires !closing && (event == Close ==> sessionClosed) && var valid := Valid(); valid
      modifies this
      ensures var proceeds := Proceeds(); proceeds
      ensures !closing ==> ActedOn([event], old(There()), There())
      decreases Fuel(), 13
    {
      hide Inv, Later, Now, There, Heeds, Heeded, Quiet, Justified, ActedOn;
      ghost var s, w := Now(), There();
      LaterItself(s);
      FairItself(w);
      ThereTells();
      match event
      case Reply(frame) => DispatchReply(frame);
      case Message =>
        CallScript();
        ThereTells();
        ActedOnOther(event, w, There());
      case Close =>
        SetPendingClose(true);
        MaybeFinishPeerClose();
        ThereTells();
        if !closing {
          ActedOnOther(event, w, There());
        }
    }

    /** A reply of the session that cannot be queued any more ends the connection. */
    method DispatchReply(frame: ControlFrame)
      requires !closing && var valid := Valid(); valid
      modifies this
      ensures var proceeds := Proceeds(); proceeds
      ensures !closing ==> ActedOn([Reply(frame)], old(There()), There())
      decreases Fuel(), 13, 0
    {
      hide Inv, Later, Now, There, Heeds, Heeded, Quiet, ActedOn, Delivered;
      ghost var s, w := Now(), There();
      NowTells();
      ThereTells();
      StreamConserved(s);
      ConcatOne(frame);
      var result := Submit([frame]);
      ghost var a, u := Now(), There();
      NowTells();
      ThereTells();
      if result != Synchronous && result != Asynchronous {
        Fail();
        NowTells();
        ThereTells();
        LaterOn(s, a, Now());
        HeedsOn(w, u, There());
      } else {
        ActedOnReply(frame, w, u);
      }
    }

    lemma ConcatOne(frame: bytes)
      ensures Concat([frame]) == frame
    {
      assert Concat([frame]) == frame + Concat([]) == frame;
    }

    method SetPendingClose(value: bool)
      requires sessionClosed && var valid := Valid(); valid
      modifies `pendingClose
      ensures pendingClose == value && Now() == old(Now()) && There() == old(There()) && var valid := Valid(); valid
    {
      hide Inv;
      pendingClose := value;
    }

    // ----- submitting

    /** The answer to a submission of `data` matches what became of it. */
    twostate predicate Answered(result: Result, data: bytes)
      reads this
    {
      match result
      case Synchronous =>
        && old(nextId) !in promised
        && (data == [] ==> Now() == old(Now()))
        && (data != [] ==> old(accepted) + data <= accepted && Delivered(Now(), |old(accepted) + data|))
      case Asynchronous => data != [] && old(accepted) + data <= accepted && old(nextId) in promised
      case IOError => data != [] && old(accepted) + data <= accepted && old(nextId) !in promised && closing
      case _ => Now() == old(Now()) && old(nextId) !in promised
    }

    /**
     Which answer it is: what cannot be counted is refused, what has others before it waits, and what is first waits
     only after octets of it were refused.
     */
    twostate predicate Classified(result: Result, parts: seq<bytes>)
      reads this
    {
      var size := |Concat(parts)|;
      && (result == BadDescriptor <==> old(closing))
      && (result == Invalid <==> !old(closing) && (parts == [] || size > W.SIZE_MAX))
      && (result == TooLarge <==> !old(closing) && parts != [] && 0 < size <= W.SIZE_MAX && old(pendingBytes) + size > W.SIZE_MAX)
      && (result != BadDescriptor && result != Invalid && result != TooLarge && size > 0 ==>
            if old(queue != [] || flushingWrites) then result == Asynchronous
            else old(active) && result == Asynchronous ==> refusals > old(refusals))
    }

    /**
     Accepts a request and writes what it can at once. Exactly the requests answered `Asynchronous`
     are promised a callback, and those answered `Synchronous` are already delivered.
     */
    method Submit(parts: seq<bytes>) returns (result: Result)
      requires var valid := Valid(); valid
      modifies this
      ensures var proceeds := Proceeds(); proceeds
      ensures var answered := Answered(result, Concat(parts)); answered
      ensures var classified := Classified(result, parts); classified
      decreases Fuel(), 12
    {
      hide Inv, Later, Now, There, Heeds, Heeded, Quiet, Justified, Delivered;
      LaterItself(Now());
      FairItself(There());
      NextIsNew(Now());
      NowTells();
      var data := Concat(parts);
      if closing {
        return BadDescriptor;
      }
      var ok, request := PrepareRequest(parts, tls);
      if !ok {
        return Invalid;
      }
      result := SubmitData(data);
    }

    method SubmitData(data: bytes) returns (result: Result)
      requires !closing && |data| <= W.SIZE_MAX && var valid := Valid(); valid
      modifies this
      ensures var proceeds := Proceeds(); proceeds
      ensures var answered := Answered(result, data); answered
      ensures data == [] ==> result == Synchronous
      ensures result == TooLarge <==> data != [] && old(pendingBytes) + |data| > W.SIZE_MAX
      ensures data != [] && result != TooLarge ==>
                if old(queue != [] || flushingWrites) then result == Asynchronous
                else result == Synchronous || result == IOError || (result == Asynchronous && (old(active) ==> refusals > old(refusals)))
      decreases Fuel(), 12, 1
    {
      hide Inv, Later, Now, There, Heeds, Heeded, Quiet, Justified, Delivered;
      if data == [] || pendingBytes > W.SIZE_MAX - |data| {
        LaterItself(Now());
        FairItself(There());
        NextIsNew(Now());
        NowTells();
        result := if data == [] then Synchronous else TooLarge;
      } else if queue != [] || flushingWrites {
        SubmitQueued(data);
        result := Asynchronous;
      } else {
        result := SubmitFirst(data);
      }
    }

    /** Others are before it: the request joins the queue with its callback promised. Within the limit that is all. */
    method SubmitQueued(data: bytes)
      requires !closing && data != [] && (queue != [] || flushingWrites) && var valid := Valid(); valid
      modifies this
      ensures var proceeds := Proceeds(); proceeds
      ensures var answered := Answered(Asynchronous, data); answered
      ensures maxBackpressure == 0 || old(pendingBytes) + |data| <= maxBackpressure ==>
                Now() == Enqueued(old(Now()), data, true) && scripts == old(scripts)
      decreases Fuel(), 11, 0
    {
      hide Inv, Later, Follows, Now, There, Enqueued, Heeds, Heeded, Quiet, Justified;
      ghost var s, w := Now(), There();
      NowTells();
      ThereTells();
      EnqueuedInv(s, data, true);
      EnqueuedTells(s, data, true);
      Enqueue(data, true, s);
      NowTells();
      ghost var a, u := Now(), There();
      StepIsFair(w, u);
      LaterItself(a);
      if BackpressureExceeded() {
        ghost var reported := TerminateForBackpressure();
        NowTells();
        CheckedLater(s, a, Now());
        HeedsOn(w, u, There());
      } else {
        LimitTells();
        EnqueuedLater(s, data);
      }
      LaterFollows(a, Now());
      KeepsItsPlace(s, data, true, a, Now());
    }

    /** Nobody is before it: the request is written at once, and promised a callback if something is left. */
    method SubmitFirst(data: bytes) returns (result: Result)
      requires !closing && data != [] && queue == [] && !flushingWrites && var valid := Valid(); valid
      modifies this
      ensures var proceeds := Proceeds(); proceeds
      ensures var answered := Answered(result, data); answered
      ensures result == Synchronous || result == IOError || (result == Asynchronous && (old(active) ==> refusals > old(refusals)))
      decreases Fuel(), 12, 0
    {
      hide Inv, Later, Follows, Delivered, Now, There, Enqueued, Heeds, Heeded, Quiet, Justified;
      ghost var s, w := Now(), There();
      NowTells();
      var id := nextId;
      ghost var a := WriteFirst(data);
      ghost var b, v := Now(), There();
      NowTells();
      if closing {
        CheckedLater(s, a, b);
        return IOError;
      }
      result := Conclude(id, data, s, a);
      NowTells();
      HeedsOn(w, v, There());
    }

    /** Enqueued as `a`, nothing promised yet, and flushed. */
    method WriteFirst(data: bytes) returns (ghost a: Pipe)
      requires !closing && data != [] && queue == [] && !flushingWrites && var valid := Valid(); valid
      modifies this
      ensures a == Enqueued(old(Now()), data, false) && !a.closing && Follows(old(Now()), a)
      ensures Later(a, Now()) && Follows(old(Now()), Now()) && var valid := Valid(); valid
      ensures var around := Around(); around
      ensures (old(Pushing()) ==> Pushing()) && (old(Leaving()) ==> Leaving())
      ensures old(accepted) + data <= accepted && old(nextId) !in promised
      ensures old(active) ==> closing || queue == [] || refusals > old(refusals)
      decreases Fuel(), 12, 0, 0
    {
      hide Inv, Later, Follows, Now, There, Enqueued, Heeds, Heeded, Quiet, Justified;
      ghost var s, w := Now(), There();
      NowTells();
      ThereTells();
      EnqueuedInv(s, data, false);
      FirstIsCalm(s, data);
      Enqueue(data, false, s);
      a := Now();
      NowTells();
      ThereTells();
      ghost var u := There();
      StepIsFair(w, u);
      FlushWrites();
      NowTells();
      HeedsOn(w, u, There());
      LaterFollows(a, Now());
      FollowsOn(s, a, Now());
      KeepsItsPlace(s, data, false, a, Now());
    }

    lemma EnqueuedTells(s: Pipe, data: bytes, deferred: bool)
      ensures var q := Enqueued(s, data, deferred); q.closing == s.closing && q.pending == s.pending + |data| && q.queue != []
    {
    }

    lemma FirstIsCalm(s: Pipe, data: bytes)
      requires s.queue == []
      ensures Calm(Enqueued(s, data, false)) && Enqueued(s, data, false).closing == s.closing
      ensures Enqueued(s, data, false).queue != []
    {
    }

    /** What the flush left of the request with this number is promised a callback, and the limit is checked. */
    method Conclude(id: nat, data: bytes, ghost s: Pipe, ghost a: Pipe) returns (result: Result)
      requires !closing && var valid := Valid(); valid
      requires Inv(s) && !s.closing && s.queue == [] && data != [] && id == s.nextId && a == Enqueued(s, data, false)
      requires Later(a, Now()) && Follows(s, Now()) && s.accepted + data <= accepted && id !in promised
      modifies this
      ensures Later(s, Now()) && var valid := Valid(); valid
      ensures var around := Around(); around
      ensures (old(Pushing()) ==> Pushing()) && (old(Leaving()) ==> Leaving())
      ensures s.accepted + data <= accepted
      ensures (result == Asynchronous && old(queue) != []) || (result == Synchronous && Delivered(Now(), |s.accepted + data|))
      ensures id in promised <==> result == Asynchronous
      decreases Fuel(), 11, 0
    {
      hide Inv, Later, Follows, Delivered, There, Heeds, Heeded, Quiet, Justified;
      ghost var b, w := Now(), There();
      FairItself(w);
      SubmittedFirst(s, data, a, b);
      var index := Find(id);
      if index < |queue| {
        DeferredInv(b);
        DeferredFollows(s, data, b);
        Defer(index, b);
        CheckLimit(s, b);
        PromiseHolds(Deferred(b), Now(), id, s.accepted + data);
        result := Asynchronous;
      } else {
        RestrainedNow(s, b);
        result := Synchronous;
      }
    }

    /** Where in the queue the request with this number is, or the end. */
    method Find(id: nat) returns (index: nat)
      ensures index <= |queue| && (index < |queue| ==> queue[index].id == id)
      ensures forall i | 0 <= i < index :: queue[i].id != id
    {
      index := 0;
      while index < |queue| && queue[index].id != id
        invariant index <= |queue| && forall i | 0 <= i < index :: queue[i].id != id
      {
        index := index + 1;
      }
    }

    method Defer(index: nat, ghost b: Pipe)
      requires b == Now() && index < |queue| && index == 0
      modifies `queue, `promised
      ensures Now() == Deferred(b) && There() == old(There())
    {
      hide Inv, Faults;
      queue := queue[index := queue[index].(deferred := true)];
      promised := promised + {b.queue[0].id};
    }

    method CheckLimit(ghost s: Pipe, ghost b: Pipe)
      requires !s.closing && b.queue != [] && Now() == Deferred(b) && !closing && Follows(s, Now()) && var valid := Valid(); valid
      requires !Excused(Now())
      modifies this
      ensures Later(s, Now()) && Follows(Deferred(b), Now()) && var valid := Valid(); valid
      ensures var around := Around(); around
      ensures (old(Pushing()) ==> Pushing()) && (old(Leaving()) ==> Leaving())
      ensures maxBackpressure == 0 || old(pendingBytes) <= maxBackpressure ==> Now() == old(Now())
      decreases Fuel(), 10
    {
      hide Inv, Later, Follows, There, Heeds, Heeded, Quiet, Justified;
      ghost var d := Now();
      LaterItself(d);
      FairItself(There());
      if BackpressureExceeded() {
        ghost var reported := TerminateForBackpressure();
        CheckedLater(s, d, Now());
      } else {
        RestrainedNow(s, d);
      }
      LaterFollows(d, Now());
    }

    method Enqueue(data: bytes, deferred: bool, ghost p: Pipe)
      requires p == Now()
      modifies `queue, `pendingBytes, `accepted, `promised, `nextId
      ensures Now() == Enqueued(p, data, deferred) && There() == old(There()).(accepted := accepted)
      ensures accepted == old(accepted) + data
    {
      hide Now, There;
      NowTells();
      Append(Request(nextId, data, |data|, 0, deferred, |accepted| + |data|), data);
      Number(deferred);
      Accept(data);
    }

    method Append(request: Request, data: bytes)
      modifies `queue, `pendingBytes
      ensures Now() == old(Now()).(queue := old(queue) + [request], pending := old(pendingBytes) + |data|)
    {
      hide Held;
      queue := queue + [request];
      pendingBytes := pendingBytes + |data|;
    }

    method Number(deferred: bool)
      modifies `promised, `nextId
      ensures Now() == old(Now()).(promised := old(promised) + (if deferred then {old(nextId)} else {}), nextId := old(nextId) + 1)
    {
      hide Held;
      promised := promised + if deferred then {nextId} else {};
      nextId := nextId + 1;
    }

    method Accept(data: bytes)
      modifies `accepted
      ensures accepted == old(accepted) + data
      ensures Now() == old(Now()).(accepted := accepted) && There() == old(There()).(accepted := accepted)
    {
      hide Held, Faults;
      accepted := accepted + data;
    }

    // ----- entry points, from the event loop or from JavaScript at rest

    /** No submission is under way, and the limit is kept. */
    ghost predicate AtRest()
      reads this
    {
      Valid() && Settled(Now()) && !flushingWrites && !tlsProcessingInput && Pushing() && Leaving()
    }

    /** Between entry points: at rest again, history only grown, and the limit not passed. */
    twostate predicate Rested()
      reads this
    {
      && AtRest() && Later(old(Now()), Now()) && (closing || maxBackpressure == 0 || pendingBytes <= maxBackpressure)
      && Heeds(old(There()), There()) && Heeded(old(There()), There())
    }

    /** If it was closed by force during the call, there was a reason. */
    twostate predicate NotClosedAtWill()
      reads this
    {
      Justified(old(There()), There())
    }

    /** What `s` and `w` have come to, with everything read in between acted on. */
    ghost predicate Come(s: Pipe, w: Side)
      reads this
    {
      && Valid() && Later(s, Now()) && Heeds(w, There()) && Heeded(w, There()) && Justified(w, There())
      && (!closing ==> Acted(readings, w, There()))
    }

    method Write(parts: seq<bytes>) returns (result: Result)
      requires AtRest()
      modifies this
      ensures Rested() && NotClosedAtWill()
      ensures Answered(result, Concat(parts)) && Classified(result, parts)
    {
      hide Inv, Later, Now, There, Heeds, Heeded, Quiet, Justified, Answered, Classified;
      ghost var s := Now();
      result := Submit(parts);
      SettledStays(s, Now());
      NowTells();
      LimitTells();
    }

    lemma LimitTells()
      ensures Now().limit == maxBackpressure
    {
    }

    method Terminate()
      requires AtRest()
      modifies this
      ensures Rested() && closing
      ensures !old(closing) ==> ending == Forced && log == old(log) + Completions(old(queue), Canceled)
    {
      hide Inv, Later, Now, There, Heeds, Heeded, Quiet, Completions;
      ghost var s := Now();
      CloseNow(Canceled, Forced);
      SettledStays(s, Now());
      NowTells();
      LimitTells();
    }

    /** Input that was read before the transport took over: it is acted on like any other. */
    method Feed(events: seq<Incoming>) returns (ok: bool)
      requires AtRest()
      modifies this
      ensures Rested() && NotClosedAtWill()
      ensures ok == !closing
      ensures ok ==> var consumed := Consumed(if old(sessionClosed) then [] else ToldBySession(events), old(There())); consumed
    {
      hide Inv, Later, Now, There, Heeds, Heeded, Quiet, Justified, ActedOn;
      ghost var s := Now();
      LaterItself(s);
      FairItself(There());
      ok := false;
      if !closing {
        ok := Consume(events);
      }
      SettledStays(s, Now());
      NowTells();
      LimitTells();
    }

    /** Starts polling: what was decrypted and what was queued before is dealt with now. */
    method Activate() returns (ok: bool)
      requires AtRest()
      modifies this
      ensures Rested() && NotClosedAtWill()
      ensures ok <==> old(!active && !closing) && !closing
      ensures active == old(active || !closing)
      ensures ok ==> Pushed() && var acted := Acted(readings, old(There()), There()); acted
      ensures ok && tls && old(taken) < |readings| ==> taken > old(taken)
    {
      hide Inv, Later, Now, There, Heeds, Heeded, Quiet, Justified, Acted;
      ghost var s, w := Now(), There();
      LaterItself(s);
      FairItself(w);
      ThereTells();
      NothingMore(w);
      ok := !active && !closing;
      if ok {
        SetActive();
        if tls {
          ok := ProcessMemoryBIO();
        }
        if ok {
          PushOn(s, w);
          ok := !closing;
        }
      }
      SettledStays(s, Now());
      NowTells();
      LimitTells();
    }

    /** A flush, at rest. */
    method PushOn(ghost s: Pipe, ghost w: Side)
      requires Settled(s) && !closing && !flushingWrites && !tlsProcessingInput && var come := Come(s, w); come
      modifies this
      ensures (var come := Come(s, w); come) && var beside := Beside(); beside
      ensures (old(Pushing()) ==> Pushing()) && (old(Leaving()) ==> Leaving())
      ensures old(active) ==> Pushing() && refusalsBefore >= old(refusals) && Pushed()
    {
      hide Inv, Later, Now, There, Heeds, Heeded, Quiet, Justified, Acted, Settled, Calm;
      ghost var a, u := Now(), There();
      ThereTells();
      SettledStays(s, a);
      FlushWrites();
      ThereTells();
      LaterOn(s, a, Now());
      HeedsOn(w, u, There());
      NothingNew(u);
      ActedThen(readings, w, u, There());
    }

    /** Since `u` nothing was read but for a closed session. */
    lemma NothingNew(u: Side)
      requires Heeds(u, There()) && sessionClosed == u.sessionClosed && (u.taken == taken || u.sessionClosed) && taken <= |readings|
      ensures Acted(readings, u, There())
    {
      ThereTells();
      NothingToAct(readings, u, There());
    }

    method SetActive()
      requires var valid := Valid(); valid
      modifies `active
      ensures active && Now() == old(Now()) && There() == old(There()) && var valid := Valid(); valid
    {
      hide Inv;
      active := true;
    }

    /**
     One report of the event loop: a failure ends the connection, a readable one is read, and a writable one, or a
     readable one for which the library was waiting, is pushed on as far as it goes.
     */
    method Poll(failed: bool, readable: bool, writable: bool)
      requires AtRest()
      modifies this
      ensures Rested() && (!failed ==> NotClosedAtWill())
      ensures failed ==> closing
      ensures failed && old(!closing && !reportingError) ==> scripts == [] || |scripts| + |log| < old(|scripts| + |log|)
      ensures !closing ==> var acted := Acted(readings, old(There()), There()); acted
      ensures (readable || (writable && tls)) && old(taken) < |readings| ==> closing || taken > old(taken)
      ensures old(active) && (writable || (readable && old(tlsWriteBlockedOnRead))) ==> Pushed()
    {
      hide Inv, Later, Now, There, Heeds, Heeded, Quiet, Justified, Acted;
      ghost var s, w := Now(), There();
      LaterItself(s);
      FairItself(w);
      ThereTells();
      NothingMore(w);
      if !closing && failed {
        Fail();
      }
      if !closing && readable {
        PollRead(s, w);
      }
      if !closing && writable {
        PollWrite(s, w);
      }
      SettledStays(s, Now());
      NowTells();
      LimitTells();
    }

    method PollRead(ghost s: Pipe, ghost w: Side)
      requires Settled(s) && !closing && !flushingWrites && !tlsProcessingInput && var come := Come(s, w); come
      modifies this
      ensures (var come := Come(s, w); come) && var beside := Beside(); beside
      ensures (old(Pushing()) ==> Pushing()) && (old(Leaving()) ==> Leaving())
      ensures old(taken) < |readings| ==> closing || taken > old(taken)
      ensures old(active && tlsWriteBlockedOnRead) ==> Pushed()
    {
      hide Inv, Later, Now, There, Heeds, Heeded, Quiet, Justified, Acted, Settled;
      var retryWrite := tlsWriteBlockedOnRead;
      BlockOnRead(false, Now());
      ReadAvailable(s, w);
      if !closing && retryWrite {
        PushOn(s, w);
      }
    }

    /** From TLS everything is read that can be decrypted, from TCP whatever is there. */
    method ReadAvailable(ghost s: Pipe, ghost w: Side)
      requires !closing && !tlsProcessingInput && var come := Come(s, w); come
      modifies this
      ensures (var come := Come(s, w); come) && var beside := Beside(); beside
      ensures (old(Pushing()) ==> Pushing()) && (old(Leaving()) ==> Leaving())
      ensures old(taken) < |readings| ==> closing || taken > old(taken)
      ensures tls ==> Quiet(old(There()), There())
    {
      hide Inv, Later, Now, There, Heeds, Heeded, Quiet, Justified, Acted;
      ghost var a, u := Now(), There();
      if tls {
        var ok := ProcessMemoryBIO();
      } else {
        ReadTCP();
      }
      LaterOn(s, a, Now());
      HeedsOn(w, u, There());
      if !closing {
        ActedThen(readings, w, u, There());
      }
    }

    /** Gives the session what the descriptor has. */
    method ReadTCP()
      requires !tls && !closing && var valid := Valid(); valid
      modifies this
      ensures var read := Reads(); read
      ensures taken == old(taken) + if old(taken) < |readings| then 1 else 0
      ensures !closing ==> var acted := Acted(readings, old(There()), There()); acted
      decreases Fuel(), 15
    {
      hide Inv, Later, Now, There, Heeds, Heeded, Justified, Acted, ActedOn;
      ghost var w := There();
      LaterItself(Now());
      FairItself(w);
      ThereTells();
      if taken == |readings| {
        NothingMore(w);
        return;
      }
      var reading := TakeReading();
      match reading {
        case Data(events, _, _) =>
          ConsumeData(events, w);
        case Nothing(_) =>
          TakenIsFair(w, There());
          ActedOnNothing(w, There());
        case EndOfInput =>
          HangUp(w);
        case Failure =>
          FailToRead(w);
      }
      ThereTells();
      if !closing {
        ActedOnce(readings, w, There());
      }
    }

    /** Octets from the descriptor; `w` is before they were taken. */
    method ConsumeData(events: seq<Incoming>, ghost w: Side)
      requires !tls && !closing && var valid := Valid(); valid
      requires !w.closing && There() == w.(taken := taken) && w.taken <= taken
      modifies this
      ensures var keeps := Keeps(); keeps
      ensures taken == old(taken) && Heeds(w, There()) && Heeded(w, There()) && Justified(w, There())
      ensures !closing ==> var consumed := Consumed(if old(sessionClosed) then [] else ToldBySession(events), w); consumed
      decreases Fuel(), 15
    {
      hide Inv, Later, Now, There, Heeds, Heeded, Quiet, Justified, ActedOn;
      ghost var u := There();
      ThereTells();
      TakenIsFair(w, u);
      var ok := Consume(events);
      HeedsOn(w, u, There());
      if ok {
        ghost var told := if old(sessionClosed) then [] else ToldBySession(events);
        ActedOnNothing(w, u);
        ActedOnMore([], told, w, u, There());
        assert [] + told == told;
      }
    }

    /** A graceful end that waits for output to be sent goes on before and after the rest of the output does. */
    method PollWrite(ghost s: Pipe, ghost w: Side)
      requires Settled(s) && !closing && !flushingWrites && !tlsProcessingInput && var come := Come(s, w); come
      modifies this
      ensures (var come := Come(s, w); come) && var beside := Beside(); beside
      ensures (old(Pushing()) ==> Pushing()) && (old(Leaving()) ==> Leaving())
      ensures tls && old(taken) < |readings| ==> closing || taken > old(taken)
      ensures old(active) ==> Pushed()
    {
      hide Inv, Later, Now, There, Heeds, Heeded, Justified, Acted, Settled;
      if tlsShutdownPending {
        ShutDownAgain(s, w);
      }
      if !closing && tls {
        ReadAvailable(s, w);
      }
      if !closing {
        PushOn(s, w);
      }
      ThereTells();
      if !closing && tlsShutdownPending {
        ShutDownAgain(s, w);
        ThereTells();
      }
    }

    method ShutDownAgain(ghost s: Pipe, ghost w: Side)
      requires !closing && !tlsProcessingInput && var come := Come(s, w); come
      modifies this
      ensures (var come := Come(s, w); come) && var beside := Beside(); beside
      ensures (old(Pushing()) ==> Pushing()) && (old(Leaving()) ==> Leaving())
      ensures Quiet(old(There()), There()) && (!closing && gracefulCloseRequested && queue == [] ==> refusals > old(refusals))
    {
      hide Inv, Later, Now, There, Heeds, Heeded, Quiet, Justified, Acted;
      ghost var a, u := Now(), There();
      ThereTells();
      PerformTLSShutdown();
      ThereTells();
      LaterOn(s, a, Now());
      HeedsOn(w, u, There());
      if !closing {
        NothingNew(u);
        ActedThen(readings, w, u, There());
      }
    }
  }
}
