/**
 The transport's outgoing side as one value: the queue of requests, what TLS holds back,
 and the history of everything accepted, written and reported. The invariant and the
 steps that keep it, from any state and for any answer of the system.
 */
module WritePipeline {
  import opened Octets

  const TLS_OUTPUT_BATCH: nat := 64 * 1024
  const TLS_PLAINTEXT_BATCH: nat := 60 * 1024

  /** A queued request: octets left, counters, and the place in the accepted stream where it ends. */
  datatype Request = Request(id: nat, left: bytes, total: nat, sent: nat, deferred: bool, end: nat)

  datatype Status = Written | Canceled | NoBuffers

  /** The start of a write callback. */
  datatype Completion = Completion(id: nat, status: Status, end: nat)

  datatype Ending = Running | Graceful | Forced

  datatype Pipe = Pipe(
    tls: bool,
    /** Most octets that may be pending, or 0 for no limit. */
    limit: nat,
    queue: seq<Request>,
    pending: nat,
    /** Octets of the first request taken by TLS, whose ciphertext is not all out. */
    committed: nat,
    /** Ciphertext taken from the library but not sent, and ciphertext still inside it. */
    cipher: bytes,
    bio: bytes,
    closing: bool,
    // history: octets on the wire, octets of accepted requests, those passed on to TLS (or TCP), all ciphertext,
    // and how much ciphertext there was once so many octets were passed on
    wire: bytes,
    accepted: bytes,
    passed: bytes,
    produced: bytes,
    marks: seq<nat>,
    /** Octets counted as sent. */
    handed: nat,
    log: seq<Completion>,
    /** Requests whose callback was promised. */
    promised: set<nat>,
    nextId: nat,
    ending: Ending)

  function Owed(r: Request): nat {
    if r.sent <= r.total then r.total - r.sent else 0
  }

  function Pending(q: seq<Request>): nat {
    if q == [] then 0 else Owed(q[0]) + Pending(q[1..])
  }

  function Left(q: seq<Request>): bytes {
    if q == [] then [] else q[0].left + Left(q[1..])
  }

  // ----- the invariant

  predicate Unfinished(q: seq<Request>, committed: nat) {
    forall i | 0 <= i < |q| :: q[i].sent < q[i].total == q[i].sent + |q[i].left| + (if i == 0 then committed else 0)
  }

  /** Each request ends where the next begins. */
  predicate Ends(q: seq<Request>, from: nat) {
    q != [] ==> q[0].end == from + |q[0].left| && Ends(q[1..], q[0].end)
  }

  /** Queue accounting. */
  predicate Accounted(p: Pipe) {
    && p.pending == Pending(p.queue)
    && (!p.closing ==>
          && Unfinished(p.queue, p.committed)
          && p.committed <= TLS_PLAINTEXT_BATCH
          && (p.queue == [] || !p.tls ==> p.committed == 0))
  }

  /** Nothing is lost, repeated or reordered, between acceptance and the wire. */
  predicate Conserved(p: Pipe) {
    && p.passed <= p.accepted
    && (!p.closing ==> p.passed + Left(p.queue) == p.accepted && Ends(p.queue, |p.passed|))
    && (if p.tls then p.wire <= p.produced && (!p.closing ==> p.wire + p.cipher + p.bio == p.produced)
        else p.wire == p.passed)
  }

  /** All octets before place `n` of the accepted stream, or all their ciphertext, are on the wire. */
  predicate Delivered(p: Pipe, n: nat) {
    n <= |p.passed| && (p.tls ==> n < |p.marks| && p.marks[n] <= |p.wire|)
  }

  predicate Nondecreasing(marks: seq<nat>) {
    forall i, j | 0 <= i <= j < |marks| :: marks[i] <= marks[j]
  }

  /** What counts as sent is delivered. */
  predicate Honest(p: Pipe) {
    && (p.tls ==> |p.marks| == |p.passed| + 1 && Nondecreasing(p.marks) && p.marks[|p.passed|] <= |p.produced|)
    && (!p.closing ==> p.committed <= |p.passed| && p.handed == |p.passed| - p.committed)
    && Delivered(p, p.handed)
  }

  predicate LogIncreasing(log: seq<Completion>) {
    forall i, j | 0 <= i < j < |log| :: log[i].id < log[j].id
  }

  predicate QueueIncreasing(q: seq<Request>) {
    forall i, j | 0 <= i < j < |q| :: q[i].id < q[j].id
  }

  function LogIds(log: seq<Completion>): set<nat> {
    set i | 0 <= i < |log| :: log[i].id
  }

  function DeferredIds(q: seq<Request>): set<nat> {
    set i | 0 <= i < |q| && q[i].deferred :: q[i].id
  }

  /** Callbacks start in the order of submission, once each; success is reported of delivered requests only. */
  predicate Kept(p: Pipe) {
    && LogIncreasing(p.log) && QueueIncreasing(p.queue)
    && (forall i | 0 <= i < |p.queue| :: p.queue[i].id < p.nextId)
    && (forall i | 0 <= i < |p.log| :: p.log[i].id < if p.queue == [] then p.nextId else p.queue[0].id)
    && (forall i | 0 < i < |p.queue| :: p.queue[i].deferred)
    && (forall i | 0 <= i < |p.log| && p.log[i].status == Written :: Delivered(p, p.log[i].end))
    && p.promised == LogIds(p.log) + DeferredIds(p.queue)
  }

  predicate EndedWell(p: Pipe) {
    && (p.ending == Running <==> !p.closing)
    && (p.ending == Graceful ==> p.passed == p.accepted && Delivered(p, |p.accepted|) && (p.tls ==> p.wire == p.produced))
  }

  predicate Inv(p: Pipe) {
    Accounted(p) && Conserved(p) && Honest(p) && Kept(p) && EndedWell(p)
  }

  function Unused(tls: bool, limit: nat): Pipe {
    Pipe(tls, limit, [], 0, 0, [], [], false, [], [], [], [], [0], 0, [], {}, 0, Running)
  }

  lemma UnusedInv(tls: bool, limit: nat)
    ensures Inv(Unused(tls, limit)) && Settled(Unused(tls, limit))
  {
    assert LogIds([]) + DeferredIds([]) == {};
  }

  // ----- what any activity may do to it

  predicate Over(p: Pipe) {
    !p.closing && p.limit != 0 && p.pending > p.limit
  }

  /** The first request is still in the hands of its own submission, which will check the limit. */
  predicate Excused(p: Pipe) {
    p.queue != [] && !p.queue[0].deferred
  }

  predicate Calm(p: Pipe) {
    Over(p) && Excused(p) ==> |p.queue| == 1
  }

  predicate Grown(a: Pipe, b: Pipe) {
    && a.tls == b.tls && a.limit == b.limit
    && a.wire <= b.wire && a.accepted <= b.accepted && a.passed <= b.passed
    && a.produced <= b.produced && a.marks <= b.marks && a.log <= b.log
  }

  /** No request is promised a callback by anyone but its own submission. */
  predicate PromisesGrown(a: Pipe, b: Pipe) {
    && a.nextId <= b.nextId && a.promised <= b.promised
    && forall id | id in b.promised && id < a.nextId :: id in a.promised
  }

  /** A first request not yet promised a callback is still first, or is delivered. */
  predicate FirstIsKnown(a: Pipe, b: Pipe) {
    !b.closing && Excused(a) ==>
      || (Excused(b) && b.queue[0].id == a.queue[0].id && b.queue[0].end == a.queue[0].end)
      || Delivered(b, a.queue[0].end)
  }

  /** All but the limit: what holds even between a submission's enqueuing and its check. */
  predicate Follows(a: Pipe, b: Pipe) {
    && Grown(a, b) && PromisesGrown(a, b) && FirstIsKnown(a, b)
    && (a.closing ==> b == a)
    && (b.closing && !a.closing ==> b.queue == [] && b.pending == 0)
  }

  predicate Restrained(a: Pipe, b: Pipe) {
    && (Over(b) ==> Over(a) && (Excused(a) ==> Excused(b)))
    && (Excused(b) ==> Excused(a) && b.queue[0].id == a.queue[0].id)
    && (Calm(a) ==> Calm(b))
  }

  /** `b` may come after `a`: history only grows, closing is final and leaves nothing queued, the limit is kept. */
  predicate Later(a: Pipe, b: Pipe) {
    Follows(a, b) && Restrained(a, b)
  }

  lemma LaterItself(a: Pipe)
    ensures Later(a, a)
  {
  }

  /** No submission under way, and the limit kept. */
  predicate Settled(p: Pipe) {
    !Excused(p) && !Over(p)
  }

  lemma SettledStays(a: Pipe, b: Pipe)
    requires Settled(a) && Later(a, b)
    ensures Settled(b) && Calm(b)
    ensures b.closing || b.limit == 0 || b.pending <= b.limit
  {
  }

  lemma LaterFollows(a: Pipe, b: Pipe)
    requires Later(a, b)
    ensures Follows(a, b)
  {
  }

  lemma CalmStays(a: Pipe, b: Pipe)
    requires Later(a, b) && Calm(a)
    ensures Calm(b)
  {
  }

  lemma ClosedForGood(a: Pipe, b: Pipe)
    requires Later(a, b) && a.closing
    ensures b == a
  {
  }

  lemma DeliveredStays(a: Pipe, b: Pipe, n: nat)
    requires Grown(a, b) && Delivered(a, n)
    ensures Delivered(b, n)
  {
  }

  lemma FollowsOn(a: Pipe, b: Pipe, c: Pipe)
    requires Follows(a, b) && Follows(b, c)
    ensures Follows(a, c)
  {
    GrownOn(a, b, c);
    if !c.closing && Excused(a) && Delivered(b, a.queue[0].end) {
      DeliveredStays(b, c, a.queue[0].end);
    }
  }

  lemma GrownOn(a: Pipe, b: Pipe, c: Pipe)
    requires Grown(a, b) && Grown(b, c)
    ensures Grown(a, c)
  {
  }

  lemma LaterOn(a: Pipe, b: Pipe, c: Pipe)
    requires Later(a, b) && Later(b, c)
    ensures Later(a, c)
  {
    FollowsOn(a, b, c);
  }

  /** What is owed on the first request is what is left of it and what TLS holds of it. */
  lemma FirstOwed(p: Pipe)
    requires Inv(p) && !p.closing && p.queue != []
    ensures 0 < Owed(p.queue[0]) == |p.queue[0].left| + p.committed <= p.pending
    ensures p.queue[0].sent + Owed(p.queue[0]) == p.queue[0].total
    ensures !p.tls ==> p.committed == 0
  {
  }

  // ----- about queues

  lemma {:induction false} QueueSnoc(q: seq<Request>, r: Request, from: nat)
    requires Ends(q, from) && r.end == from + |Left(q)| + |r.left|
    ensures Pending(q + [r]) == Pending(q) + Owed(r) && Left(q + [r]) == Left(q) + r.left && Ends(q + [r], from)
    decreases |q|
  {
    if q == [] {
      assert [r][1..] == [] && q + [r] == [r];
    } else {
      assert (q + [r])[1..] == q[1..] + [r];
      QueueSnoc(q[1..], r, q[0].end);
    }
  }

  lemma DeferredSnoc(q: seq<Request>, r: Request)
    ensures DeferredIds(q + [r]) == DeferredIds(q) + if r.deferred then {r.id} else {}
  {
    var t := q + [r];
    assert forall i | 0 <= i < |q| :: t[i] == q[i];
    assert t[|q|] == r;
    forall id | id in DeferredIds(q)
      ensures id in DeferredIds(t)
    {
      var i :| 0 <= i < |q| && q[i].deferred && q[i].id == id;
      assert t[i].deferred && t[i].id == id;
    }
  }

  lemma DeferredHead(q: seq<Request>)
    requires q != []
    ensures DeferredIds(q) == DeferredIds(q[1..]) + if q[0].deferred then {q[0].id} else {}
  {
    forall id | id in DeferredIds(q[1..])
      ensures id in DeferredIds(q)
    {
      var i :| 0 <= i < |q| - 1 && q[1..][i].deferred && q[1..][i].id == id;
      assert q[i + 1].deferred && q[i + 1].id == id;
    }
    forall id | id in DeferredIds(q)
      ensures id in DeferredIds(q[1..]) || (q[0].deferred && id == q[0].id)
    {
      var i :| 0 <= i < |q| && q[i].deferred && q[i].id == id;
      assert i > 0 ==> q[1..][i - 1] == q[i];
    }
  }

  lemma LogSnoc(log: seq<Completion>, c: Completion)
    ensures LogIds(log + [c]) == LogIds(log) + {c.id}
  {
    var t := log + [c];
    assert forall i | 0 <= i < |log| :: t[i] == log[i];
    assert t[|log|] == c;
    forall id | id in LogIds(log)
      ensures id in LogIds(t)
    {
      var i :| 0 <= i < |log| && log[i].id == id;
      assert t[i].id == id;
    }
  }

  // ----- enqueuing

  function Enqueued(p: Pipe, data: bytes, deferred: bool): Pipe {
    p.(queue := p.queue + [Request(p.nextId, data, |data|, 0, deferred, |p.accepted| + |data|)],
       pending := p.pending + |data|,
       accepted := p.accepted + data,
       promised := p.promised + (if deferred then {p.nextId} else {}),
       nextId := p.nextId + 1)
  }

  lemma EnqueuedInv(p: Pipe, data: bytes, deferred: bool)
    requires Inv(p) && !p.closing && data != [] && (deferred || p.queue == [])
    ensures Inv(Enqueued(p, data, deferred)) && Follows(p, Enqueued(p, data, deferred))
  {
    EnqueuedConserved(p, data, deferred);
    EnqueuedKept(p, data, deferred);
  }

  lemma EnqueuedConserved(p: Pipe, data: bytes, deferred: bool)
    requires Accounted(p) && Conserved(p) && !p.closing && data != []
    ensures var q := Enqueued(p, data, deferred); Accounted(q) && Conserved(q)
  {
    var r := Enqueued(p, data, deferred).queue[|p.queue|];
    QueueSnoc(p.queue, r, |p.passed|);
    assert p.passed + (Left(p.queue) + data) == (p.passed + Left(p.queue)) + data;
  }

  lemma EnqueuedKept(p: Pipe, data: bytes, deferred: bool)
    requires Kept(p) && (deferred || p.queue == [])
    ensures var q := Enqueued(p, data, deferred); Kept(q)
  {
    DeferredSnoc(p.queue, Enqueued(p, data, deferred).queue[|p.queue|]);
  }

  /** Promising a callback to the request that is first and has none. */
  function Deferred(p: Pipe): Pipe
    requires p.queue != []
  {
    p.(queue := p.queue[0 := p.queue[0].(deferred := true)], promised := p.promised + {p.queue[0].id})
  }

  lemma DeferredInv(p: Pipe)
    requires Inv(p) && !p.closing && Excused(p)
    ensures Inv(Deferred(p))
  {
    DeferredKept(p);
    assert Deferred(p).queue[1..] == p.queue[1..];
  }

  lemma DeferredKept(p: Pipe)
    requires Kept(p) && Excused(p)
    ensures Kept(Deferred(p))
  {
    var q := Deferred(p);
    DeferredHead(p.queue);
    DeferredHead(q.queue);
    assert q.queue[1..] == p.queue[1..];
  }

  // ----- sending

  /** The first request without its first `n` octets, which TCP took. */
  function SentTCP(p: Pipe, n: nat): Pipe
    requires p.queue != [] && n <= |p.queue[0].left| && n <= p.pending
  {
    var r := p.queue[0];
    p.(queue := p.queue[0 := r.(left := r.left[n..], sent := r.sent + n)],
       pending := p.pending - n,
       wire := p.wire + r.left[..n], passed := p.passed + r.left[..n], handed := p.handed + n)
  }

  function Repeated(v: nat, n: nat): (s: seq<nat>)
    ensures |s| == n && forall i | 0 <= i < n :: s[i] == v
  {
    seq(n, _ => v)
  }

  /** TLS took `n` octets of the first request and made `text` of them. */
  function Staged(p: Pipe, n: nat, text: bytes): Pipe
    requires p.queue != [] && n <= |p.queue[0].left|
  {
    var r := p.queue[0];
    p.(queue := p.queue[0 := r.(left := r.left[n..])],
       committed := p.committed + n,
       bio := p.bio + text, produced := p.produced + text,
       passed := p.passed + r.left[..n],
       marks := p.marks + Repeated(|p.produced| + |text|, n))
  }

  /** All ciphertext is out: the octets it was made of count as sent. */
  function Committed(p: Pipe): Pipe
    requires p.queue != [] && p.committed <= p.pending
  {
    var r := p.queue[0];
    p.(queue := p.queue[0 := r.(sent := r.sent + p.committed)],
       pending := p.pending - p.committed, committed := 0, handed := |p.passed|)
  }

  /** The first request leaves the queue; its callback starts, if one was promised. */
  function Dequeued(p: Pipe, status: Status): Pipe
    requires p.queue != []
  {
    var r := p.queue[0];
    p.(queue := p.queue[1..],
       pending := if Owed(r) <= p.pending then p.pending - Owed(r) else 0,
       log := if r.deferred then p.log + [Completion(r.id, status, r.end)] else p.log)
  }

  lemma PendingHead(p: Pipe)
    requires Accounted(p) && p.queue != []
    ensures Owed(p.queue[0]) <= p.pending == Owed(p.queue[0]) + Pending(p.queue[1..])
    ensures !p.closing ==> |p.queue[0].left| + p.committed == Owed(p.queue[0]) > 0
  {
  }

  /** Steps that leave the log and everybody's order alone. */
  lemma KeptWhileMoving(p: Pipe, q: Pipe)
    requires Kept(p) && Grown(p, q)
    requires q.log == p.log && q.promised == p.promised && q.nextId == p.nextId
    requires |q.queue| == |p.queue| && forall i | 0 <= i < |p.queue| :: q.queue[i].id == p.queue[i].id && q.queue[i].deferred == p.queue[i].deferred
    ensures Kept(q)
  {
    forall i | 0 <= i < |p.log| && p.log[i].status == Written
      ensures Delivered(q, p.log[i].end)
    {
      DeliveredStays(p, q, p.log[i].end);
    }
    assert DeferredIds(q.queue) == DeferredIds(p.queue) by {
      assert forall i | 0 <= i < |p.queue| && p.queue[i].deferred :: q.queue[i].deferred && q.queue[i].id == p.queue[i].id;
      assert forall i | 0 <= i < |q.queue| && q.queue[i].deferred :: p.queue[i].deferred && q.queue[i].id == p.queue[i].id;
    }
  }

  /** TCP took octets of the first request. */
  lemma SentTCPFlows(p: Pipe, n: nat)
    requires Inv(p) && !p.closing && !p.tls && p.queue != [] && 0 < n <= |p.queue[0].left|
    ensures n <= p.pending
    ensures var q := SentTCP(p, n);
            Conserved(q) && Honest(q) && Grown(p, q) && Kept(q) && EndedWell(q) && q.pending == Pending(q.queue)
  {
    PendingHead(p);
    SentTCPConserved(p, n);
    KeptWhileMoving(p, SentTCP(p, n));
  }

  lemma SentTCPConserved(p: Pipe, n: nat)
    requires Accounted(p) && Conserved(p) && !p.closing && !p.tls && p.queue != []
    requires 0 < n <= |p.queue[0].left| && n <= p.pending && n <= Owed(p.queue[0])
    ensures var q := SentTCP(p, n);
            Conserved(q) && Grown(p, q) && q.pending == Pending(q.queue)
  {
    var q, r := SentTCP(p, n), p.queue[0];
    assert q.queue[1..] == p.queue[1..];
    assert r.left[..n] + r.left[n..] == r.left;
    assert (p.passed + r.left[..n]) + (r.left[n..] + Left(p.queue[1..])) == p.passed + (r.left + Left(p.queue[1..]));
  }

  lemma SentTCPInv(p: Pipe, n: nat)
    requires Inv(p) && !p.closing && !p.tls && p.queue != [] && 0 < n < Owed(p.queue[0])
    ensures n <= |p.queue[0].left| && n <= p.pending
    ensures Inv(SentTCP(p, n)) && Later(p, SentTCP(p, n))
  {
    PendingHead(p);
    SentTCPFlows(p, n);
  }

  /** Ciphertext leaves for the wire. */
  function Drained(p: Pipe, out: bytes, cipher: bytes, bio: bytes): Pipe {
    p.(wire := p.wire + out, cipher := cipher, bio := bio)
  }

  lemma DrainedInv(p: Pipe, out: bytes, cipher: bytes, bio: bytes)
    requires Inv(p) && p.tls && !p.closing && p.cipher + p.bio == out + (cipher + bio)
    ensures Inv(Drained(p, out, cipher, bio)) && Later(p, Drained(p, out, cipher, bio))
  {
    var q := Drained(p, out, cipher, bio);
    DrainedConserved(p, out, cipher, bio);
    DeliveredStays(p, q, p.handed);
    KeptWhileMoving(p, q);
  }

  lemma DrainedConserved(p: Pipe, out: bytes, cipher: bytes, bio: bytes)
    requires Conserved(p) && p.tls && !p.closing && p.cipher + p.bio == out + (cipher + bio)
    ensures Conserved(Drained(p, out, cipher, bio)) && Grown(p, Drained(p, out, cipher, bio))
  {
    assert p.produced == p.wire + (p.cipher + p.bio) == (p.wire + out) + (cipher + bio);
    assert (p.wire + out) + (cipher + bio) == (p.wire + out) + cipher + bio;
  }

  /** The library makes ciphertext of its own: answers to the peer, or the closing alert. */
  function Produced(p: Pipe, text: bytes): Pipe {
    p.(bio := p.bio + text, produced := p.produced + text)
  }

  lemma ProducedInv(p: Pipe, text: bytes)
    requires Inv(p) && p.tls && !p.closing
    ensures Inv(Produced(p, text)) && Later(p, Produced(p, text))
  {
    var q := Produced(p, text);
    assert p.wire + p.cipher + (p.bio + text) == (p.wire + p.cipher + p.bio) + text;
    KeptWhileMoving(p, q);
  }

  lemma StagedInv(p: Pipe, n: nat, text: bytes)
    requires Inv(p) && p.tls && !p.closing && p.queue != [] && 0 < n <= |p.queue[0].left|
    requires p.committed + n <= TLS_PLAINTEXT_BATCH
    ensures Inv(Staged(p, n, text)) && Later(p, Staged(p, n, text))
  {
    StagedFlows(p, n, text);
    KeptWhileMoving(p, Staged(p, n, text));
  }

  lemma StagedFlows(p: Pipe, n: nat, text: bytes)
    requires Accounted(p) && Conserved(p) && Honest(p)
    requires p.tls && !p.closing && p.queue != [] && 0 < n <= |p.queue[0].left| && p.committed + n <= TLS_PLAINTEXT_BATCH
    ensures var q := Staged(p, n, text); Accounted(q) && Conserved(q) && Honest(q) && Grown(p, q)
  {
    var q, r := Staged(p, n, text), p.queue[0];
    StagedMarks(p, n, text);
    assert q.queue[1..] == p.queue[1..];
    assert r.left[..n] + r.left[n..] == r.left;
    assert (p.passed + r.left[..n]) + (r.left[n..] + Left(p.queue[1..])) == p.passed + (r.left + Left(p.queue[1..]));
    assert p.wire + p.cipher + (p.bio + text) == (p.wire + p.cipher + p.bio) + text;
  }

  lemma StagedMarks(p: Pipe, n: nat, text: bytes)
    requires Honest(p) && p.tls && !p.closing && p.queue != [] && n <= |p.queue[0].left|
    ensures var q := Staged(p, n, text); Honest(q) && p.marks <= q.marks
  {
    var q := Staged(p, n, text);
    assert q.marks[|p.passed|] == p.marks[|p.passed|];
    assert Nondecreasing(q.marks);
  }

  /** Nothing held back: all that was passed on counts as sent. */
  lemma CommittedFlows(p: Pipe)
    requires Inv(p) && p.tls && !p.closing && p.queue != [] && p.committed > 0 && p.cipher == [] && p.bio == []
    ensures p.committed <= p.pending
    ensures var q := Committed(p);
            Conserved(q) && Honest(q) && Grown(p, q) && Kept(q) && EndedWell(q) && q.pending == Pending(q.queue)
  {
    PendingHead(p);
    var q := Committed(p);
    assert q.queue[1..] == p.queue[1..];
    assert p.wire == p.produced;
    KeptWhileMoving(p, q);
  }

  lemma CommittedInv(p: Pipe)
    requires Inv(p) && p.tls && !p.closing && p.queue != [] && p.cipher == [] && p.bio == []
    requires 0 < p.committed < Owed(p.queue[0])
    ensures p.committed <= p.pending
    ensures Inv(Committed(p)) && Later(p, Committed(p))
  {
    PendingHead(p);
    CommittedFlows(p);
  }

  // ----- completing

  /** From `p`, the last octet of the first request has just been counted. */
  predicate Finishing(p: Pipe, m: Pipe) {
    && Inv(p) && !p.closing && p.queue != [] && 0 < Owed(p.queue[0]) <= p.pending
    && if p.tls then p.committed == Owed(p.queue[0]) && p.cipher == [] && p.bio == [] && m == Committed(p)
       else Owed(p.queue[0]) == |p.queue[0].left| && m == SentTCP(p, |p.queue[0].left|)
  }

  lemma FinishedInv(p: Pipe, m: Pipe)
    requires Finishing(p, m)
    ensures m.queue != [] && Owed(m.queue[0]) == 0 && Inv(Dequeued(m, Written))
    ensures Completed(m, Dequeued(m, Written))
    ensures Calm(p) ==> Later(p, Dequeued(m, Written))
  {
    PendingHead(p);
    if p.tls {
      CommittedFlows(p);
    } else {
      SentTCPFlows(p, |p.queue[0].left|);
    }
    FinishedFlows(p, m);
    DequeuedKept(m, Written);
    HeadIsGone(m, Written);
    if Calm(p) {
      FinishedLater(p, m);
    }
  }

  lemma FinishedLater(p: Pipe, m: Pipe)
    requires Finishing(p, m) && Calm(p) && m.queue != [] && Grown(p, m) && Delivered(m, m.queue[0].end)
    requires Owed(m.queue[0]) == 0 && m.pending <= p.pending && Inv(Dequeued(m, Written))
    ensures Later(p, Dequeued(m, Written))
  {
    hide Left, Ends, Conserved;
  }

  /** The first request of `m` was delivered and left the queue, its callback, if one was promised, being the next to start. */
  predicate Completed(m: Pipe, b: Pipe)
    requires m.queue != []
  {
    var r := m.queue[0];
    && Delivered(b, r.end)
    && (forall i | 0 <= i < |b.queue| :: b.queue[i].id != r.id)
    && (if r.deferred then m.log + [Completion(r.id, Written, r.end)] <= b.log else b.log == m.log)
  }

  lemma HeadIsGone(m: Pipe, status: Status)
    requires m.queue != [] && QueueIncreasing(m.queue)
    ensures forall i | 0 <= i < |m.queue| - 1 :: Dequeued(m, status).queue[i].id != m.queue[0].id
  {
    assert forall i | 0 <= i < |m.queue| - 1 :: m.queue[1..][i] == m.queue[i + 1];
  }

  /** Nothing that comes after undoes it. */
  lemma CompletedStays(m: Pipe, a: Pipe, b: Pipe)
    requires m.queue != [] && m.queue[0].deferred && Completed(m, a) && Later(a, b) && Inv(b)
    ensures Completed(m, b)
  {
    var r := m.queue[0];
    DeliveredStays(a, b, r.end);
    assert b.log[|m.log|] == Completion(r.id, Written, r.end);
    assert b.queue != [] ==> r.id < b.queue[0].id;
  }

  lemma FinishedFlows(p: Pipe, m: Pipe)
    requires Finishing(p, m) && Conserved(m) && Honest(m) && Grown(p, m) && m.queue != []
    requires m.queue[1..] == p.queue[1..] && m.pending == Pending(m.queue)
    ensures Delivered(m, m.queue[0].end)
    ensures var q := Dequeued(m, Written); Accounted(q) && Conserved(q) && Honest(q)
  {
    PendingHead(p);
    var r := m.queue[0];
    assert Owed(r) == 0 && r.left == [] && m.committed == 0;
    assert m.passed + ([] + Left(m.queue[1..])) == m.passed + Left(m.queue[1..]);
    assert Dequeued(m, Written).queue == p.queue[1..];
    DequeuedUnfinished(p.queue, p.committed);
  }

  lemma DequeuedUnfinished(q: seq<Request>, committed: nat)
    requires Unfinished(q, committed) && q != []
    ensures Unfinished(q[1..], 0)
  {
    forall i | 0 <= i < |q| - 1
      ensures q[1..][i] == q[i + 1]
    {
    }
  }

  lemma DequeuedKept(m: Pipe, status: Status)
    requires Kept(m) && m.queue != [] && (status == Written ==> Delivered(m, m.queue[0].end))
    ensures Kept(Dequeued(m, status))
  {
    hide LogIds, DeferredIds, Owed;
    var q, r := Dequeued(m, status), m.queue[0];
    DeferredHead(m.queue);
    LogSnoc(m.log, Completion(r.id, status, r.end));
    assert forall i | 0 <= i < |q.queue| :: q.queue[i] == m.queue[i + 1];
    assert forall i | 0 <= i < |m.log| :: q.log[i] == m.log[i];
  }

  // ----- closing

  /** The callbacks that canceling the requests of `q` starts. */
  function Completions(q: seq<Request>, status: Status): seq<Completion> {
    if q == [] then []
    else (if q[0].deferred then [Completion(q[0].id, status, q[0].end)] else []) + Completions(q[1..], status)
  }

  lemma CanceledOne(p: Pipe, status: Status)
    requires p.queue != []
    ensures var q := Dequeued(p, status); q.log + Completions(q.queue, status) == p.log + Completions(p.queue, status)
  {
    var r := p.queue[0];
    var first := if r.deferred then [Completion(r.id, status, r.end)] else [];
    assert (p.log + first) + Completions(p.queue[1..], status) == p.log + (first + Completions(p.queue[1..], status));
  }

  function Closed(p: Pipe, ending: Ending): Pipe {
    p.(closing := true, ending := ending)
  }

  /** `q` is `p` closed, with some of its requests canceled. */
  predicate Canceling(p: Pipe, q: Pipe) {
    && Inv(q) && q.closing && p.log <= q.log
    && q == p.(closing := true, ending := q.ending, queue := q.queue, pending := q.pending, log := q.log)
  }

  lemma ClosedCanceling(p: Pipe, ending: Ending)
    requires Inv(p) && !p.closing && ending != Running
    requires ending == Graceful ==> p.queue == [] && (p.tls ==> p.cipher == [] && p.bio == [])
    ensures Canceling(p, Closed(p, ending))
  {
    var q := Closed(p, ending);
    if ending == Graceful {
      assert p.passed + [] == p.accepted;
    }
    assert Kept(q);
  }

  lemma CanceledCanceling(p: Pipe, q: Pipe, status: Status)
    requires Canceling(p, q) && q.queue != [] && status != Written
    ensures Canceling(p, Dequeued(q, status))
  {
    DequeuedKept(q, status);
    var r := Dequeued(q, status);
    assert Accounted(r) by {
      PendingHead(q);
    }
    assert Conserved(r) && Honest(r) && EndedWell(r);
  }

  /** Closing is complete: nothing is queued and what TLS held back is dropped. */
  function Gone(q: Pipe): Pipe {
    q.(cipher := [], committed := 0)
  }

  lemma GoneLater(p: Pipe, q: Pipe)
    requires Inv(p) && !p.closing && Canceling(p, q) && q.queue == []
    ensures Inv(Gone(q)) && Later(p, Gone(q))
  {
    assert Kept(Gone(q));
  }

  // ----- what the invariant says at the end

  /** After closing, every promised callback has been made; and each was made once. */
  lemma PromisesAreKept(p: Pipe)
    requires Inv(p) && p.queue == []
    ensures p.promised == LogIds(p.log)
    ensures forall i, j | 0 <= i < j < |p.log| :: p.log[i].id < p.log[j].id
  {
    assert DeferredIds(p.queue) == {};
  }

  /** A success report is the truth, then and ever after. */
  lemma SuccessIsTrue(a: Pipe, b: Pipe, i: nat)
    requires Inv(a) && Later(a, b) && i < |a.log| && a.log[i].status == Written
    ensures i < |b.log| && b.log[i] == a.log[i] && Delivered(b, a.log[i].end)
  {
    DeliveredStays(a, b, a.log[i].end);
  }

  /** TCP: wire and queue together are the accepted stream. TLS: ciphertext is conserved as well. */
  lemma StreamConserved(p: Pipe)
    requires Inv(p) && !p.closing
    ensures p.passed + Left(p.queue) == p.accepted
    ensures !p.tls ==> p.wire + Left(p.queue) == p.accepted
    ensures p.tls ==> p.wire + p.cipher + p.bio == p.produced
    ensures |p.accepted| == p.handed + p.pending
  {
    PendingIsUnhanded(p.queue, p.committed);
    assert |p.accepted| == |p.passed| + |Left(p.queue)|;
  }

  lemma {:induction false} PendingIsUnhanded(q: seq<Request>, committed: nat)
    requires Unfinished(q, committed) && (q == [] ==> committed == 0)
    ensures Pending(q) == |Left(q)| + committed
    decreases |q|
  {
    if q != [] {
      DequeuedUnfinished(q, committed);
      PendingIsUnhanded(q[1..], 0);
    }
  }

  /** On the peer's Close the connection ends only after everything accepted before, the reply included, is on the wire. */
  lemma GracefulEndDrains(p: Pipe)
    requires Inv(p) && p.ending == Graceful
    ensures p.closing && p.passed == p.accepted && Delivered(p, |p.accepted|)
    ensures !p.tls ==> p.wire == p.accepted
    ensures p.tls ==> p.marks[|p.accepted|] <= |p.wire| && p.wire == p.produced
  {
  }

  // ----- one submission

  lemma NextIsNew(p: Pipe)
    requires Inv(p)
    ensures p.nextId !in p.promised
  {
  }

  /** A submission that ends with the transport closed. */
  lemma CheckedLater(s: Pipe, a: Pipe, b: Pipe)
    requires !s.closing && Follows(s, a) && !a.closing && Later(a, b) && b.closing
    ensures Later(s, b)
  {
    FollowsOn(s, a, b);
  }

  /** A submission that ends within the limit, everything queued promised its callback. */
  lemma RestrainedNow(s: Pipe, b: Pipe)
    requires Follows(s, b) && !Over(b) && !Excused(b)
    ensures Later(s, b)
  {
  }

  /** What stays of a request once enqueued: its octets are accepted, and only its own submission promises. */
  lemma KeepsItsPlace(s: Pipe, data: bytes, deferred: bool, a: Pipe, b: Pipe)
    requires Inv(s) && a == Enqueued(s, data, deferred) && Follows(a, b)
    ensures s.accepted + data <= b.accepted
    ensures s.nextId in b.promised <==> deferred
  {
  }

  lemma EnqueuedLater(s: Pipe, data: bytes)
    requires Inv(s) && !s.closing && data != [] && !Over(Enqueued(s, data, true))
    ensures Later(s, Enqueued(s, data, true))
  {
    EnqueuedInv(s, data, true);
  }

  lemma DeferredIsPromised(p: Pipe, i: nat)
    requires Inv(p) && i < |p.queue| && p.queue[i].deferred
    ensures p.queue[i].id in p.promised
  {
    assert p.queue[i].id in DeferredIds(p.queue);
  }

  lemma PromiseHolds(a: Pipe, b: Pipe, id: nat, taken: bytes)
    requires Follows(a, b) && id in a.promised && taken <= a.accepted
    ensures id in b.promised && taken <= b.accepted
  {
  }

  /** After the flush of its own submission, a request is first in the queue, still without promise, or delivered. */
  lemma SubmittedFirst(s: Pipe, data: bytes, a: Pipe, b: Pipe)
    requires Inv(s) && !s.closing && s.queue == [] && data != [] && a == Enqueued(s, data, false)
    requires Inv(b) && Later(a, b) && !b.closing
    ensures forall i | 0 <= i < |b.queue| && b.queue[i].id == s.nextId :: i == 0 && Excused(b)
    ensures (forall i | 0 <= i < |b.queue| :: b.queue[i].id != s.nextId) ==>
              Delivered(b, |s.accepted + data|) && !Over(b) && !Excused(b)
  {
    assert Excused(a) && a.queue[0].id == s.nextId && a.queue[0].end == |s.accepted + data|;
    KeepsItsPlace(s, data, false, a, b);
    forall i | 0 <= i < |b.queue| && b.queue[i].id == s.nextId
      ensures i == 0 && Excused(b)
    {
      if b.queue[i].deferred {
        DeferredIsPromised(b, i);
        assert false;
      }
    }
  }

  lemma DeferredFollows(s: Pipe, data: bytes, b: Pipe)
    requires Inv(s) && !s.closing && s.queue == [] && Follows(s, b) && Inv(b) && !b.closing && Excused(b)
    requires b.queue[0].id == s.nextId
    ensures Follows(s, Deferred(b)) && !Excused(Deferred(b)) && Deferred(b).promised == b.promised + {s.nextId}
  {
  }
}
