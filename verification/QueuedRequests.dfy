/**
 A request in the queue as the pipeline sees it, its octets left and its counters, and the parts and cursor
 that implement it: each operation on the cursor is the pipeline's step on the first request of the queue.
 */
module QueuedRequests {
  import opened Octets
  import opened WritePipeline
  import N = NativeTransport
  import W = WriteRequests

  ghost predicate Implements(w: W.WriteRequest, r: Request)
    reads w, w.inlineParts, w.inlineBytes
  {
    w.Ready() && w.Remaining() == r.left && w.sent == r.sent && w.bytesTotal == r.total
  }

  /** The request made of some parts implements the one that its submission enqueues. */
  method Create(parts: seq<bytes>, tls: bool, ghost p: Pipe, ghost deferred: bool) returns (ok: bool, w: W.WriteRequest)
    ensures ok <==> parts != [] && |Concat(parts)| <= W.SIZE_MAX
    ensures ok ==> fresh(w) && fresh(w.inlineParts) && Implements(w, Enqueued(p, Concat(parts), deferred).queue[|p.queue|])
  {
    ok, w := N.PrepareRequest(parts, tls);
  }

  /** What is counted as missing, and as not yet staged, is what the cursor still has before it. */
  lemma CountsAgree(w: W.WriteRequest, p: Pipe)
    requires Inv(p) && !p.closing && p.queue != [] && Implements(w, p.queue[0])
    ensures w.bytesTotal - w.sent == Owed(p.queue[0])
    ensures w.bytesTotal - w.sent - p.committed == |w.Remaining()|
  {
    FirstOwed(p);
  }

  /**
   One gathered write: of the vectors offered the descriptor takes the first octets, at most `taken`. They
   are the first octets left of the request, and the cursor stands where the pipeline says.
   */
  method SendVectors(w: W.WriteRequest, maximum: nat, taken: nat, ghost p: Pipe) returns (vectors: seq<bytes>, n: nat)
    requires maximum > 0 && p.queue != [] && p.queue[0].left != [] && |p.queue[0].left| <= p.pending
    requires Implements(w, p.queue[0])
    modifies w, w.inlineParts
    ensures |vectors| <= maximum && n <= |Concat(vectors)| && (n > 0 <==> taken > 0)
    ensures n <= |p.queue[0].left| && Implements(w, SentTCP(p, n).queue[0])
    ensures SentTCP(p, n).wire == p.wire + Concat(vectors)[..n]
  {
    hide W.WriteRequest.Ready, W.WriteRequest.Remaining;
    ghost var left := p.queue[0].left;
    vectors := w.RemainingIovecs(maximum);
    SomeOffered(vectors);
    var offered := |Concat(vectors)|;
    n := if taken < offered then taken else offered;
    assert Concat(vectors)[..n] == left[..n];
    w.Advance(n);
  }

  lemma SomeOffered(vectors: seq<bytes>)
    requires vectors != [] && vectors[0] != []
    ensures Concat(vectors) != []
  {
  }

  /**
   One call of the TLS library: it is offered what is left of the part under the cursor, at most `limit`
   octets, and takes some of it; these are the next octets passed on.
   */
  method Stage(w: W.WriteRequest, limit: nat, taken: nat, ghost text: bytes, ghost p: Pipe) returns (offered: bytes, n: nat)
    requires limit > 0 && p.queue != [] && p.queue[0].left != [] && Implements(w, p.queue[0])
    modifies w, w.inlineParts
    ensures 0 < n <= |offered| <= limit && offered <= p.queue[0].left
    ensures Implements(w, Staged(p, n, text).queue[0]) && Staged(p, n, text).passed == p.passed + offered[..n]
  {
    hide W.WriteRequest.Ready, W.WriteRequest.Remaining;
    offered := w.RemainingData();
    if |offered| > limit {
      offered := offered[..limit];
    }
    n := if taken == 0 then 1 else if taken < |offered| then taken else |offered|;
    w.StageTLS(n);
  }

  /** What was staged counts as sent. */
  method Commit(w: W.WriteRequest, n: nat, ghost p: Pipe)
    requires p.queue != [] && n == p.committed <= p.pending && Implements(w, p.queue[0])
    modifies w
    ensures Implements(w, Committed(p).queue[0])
  {
    w.CommitTLS(n);
  }
}
