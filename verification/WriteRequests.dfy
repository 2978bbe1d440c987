/**
 One outgoing write: parts of different storage kinds, two of them kept inline, and a
 cursor that partial sends move along. Whatever is done to the parts, the octets still
 to be written are those that were handed in.
 */
module WriteRequests {
  import opened Octets
  import F = Framing

  const INLINE_PARTS: nat := 2
  const INLINE_BYTES: nat := 1024 + 14
  /** The largest `size_t`. */
  const SIZE_MAX: nat := 0xFFFF_FFFF_FFFF_FFFF

  /** Where the octets of a part live: its own string, the caller's buffer, the request itself, or nowhere. */
  datatype Storage = Nothing | Owned(text: bytes) | External(data: bytes) | Inline

  /** `pointer` counts from the start of the storage. Moving a part may lose the pointer into its own string. */
  datatype Part = Part(storage: Storage, pointer: Option<nat>, length: nat, ownedOffset: nat)

  const RELEASED := Part(Nothing, None, 0, 0)

  /** What a part holds; `inl` is the request's inline storage. */
  function Held(p: Part, inl: bytes): bytes
    requires Sound(p, inl)
  {
    match p.storage
    case Nothing => []
    case Owned(text) => text[p.ownedOffset..p.ownedOffset + p.length]
    case External(data) => data[p.pointer.value..p.pointer.value + p.length]
    case Inline => inl[p.pointer.value..p.pointer.value + p.length]
  }

  predicate Sound(p: Part, inl: bytes) {
    match p.storage
    case Nothing => p.length == 0
    case Owned(text) => p.ownedOffset + p.length <= |text|
    case External(data) => p.pointer.Some? && p.pointer.value + p.length <= |data|
    case Inline => p.pointer.Some? && p.pointer.value + p.length <= |inl|
  }

  /** The pointer is where the octets are, so they can be read through it. */
  predicate Located(p: Part) {
    p.storage.Owned? && p.length > 0 ==> p.pointer == Some(p.ownedOffset)
  }

  /** What the move constructor leaves certain: a short string moves with its owner, and its address changes. */
  function Moved(p: Part): Part {
    if p.storage.Owned? then p.(pointer := None) else p
  }

  predicate NoneInline(ps: seq<Part>) {
    forall i | 0 <= i < |ps| :: !ps[i].storage.Inline?
  }

  predicate AllSound(ps: seq<Part>, inl: bytes) {
    forall i | 0 <= i < |ps| :: Sound(ps[i], inl)
  }

  function Joined(ps: seq<Part>, inl: bytes): bytes
    requires AllSound(ps, inl)
  {
    if ps == [] then [] else Held(ps[0], inl) + Joined(ps[1..], inl)
  }

  lemma {:induction false} JoinedConcat(xs: seq<Part>, ys: seq<Part>, inl: bytes)
    requires AllSound(xs, inl) && AllSound(ys, inl)
    ensures Joined(xs + ys, inl) == Joined(xs, inl) + Joined(ys, inl)
  {
    if xs == [] {
      assert xs + ys == ys;
    } else {
      assert (xs + ys)[0] == xs[0] && (xs + ys)[1..] == xs[1..] + ys;
      JoinedConcat(xs[1..], ys, inl);
    }
  }

  lemma JoinedOne(p: Part, inl: bytes)
    requires Sound(p, inl)
    ensures Joined([p], inl) == Held(p, inl)
  {
    assert Joined([p], inl) == Held(p, inl) + Joined([], inl);
  }

  lemma JoinedTwo(p: Part, q: Part, inl: bytes)
    requires Sound(p, inl) && Sound(q, inl)
    ensures Joined([p, q], inl) == Held(p, inl) + Held(q, inl)
  {
    assert [p, q][1..] == [q];
    JoinedOne(q, inl);
  }

  /** A header put before the only part there is. */
  lemma PartBehindHeader(ps: seq<Part>, header: bytes, inl: bytes)
    requires |ps| == 1 && Outside(ps, inl)
    ensures var p := Part(Owned(header), Some(0), |header|, 0);
            Outside([p, Moved(ps[0])], inl) && Joined([p, Moved(ps[0])], inl) == header + Joined(ps, inl)
  {
    var p := Part(Owned(header), Some(0), |header|, 0);
    assert ps == [ps[0]];
    JoinedOne(ps[0], inl);
    JoinedTwo(p, Moved(ps[0]), inl);
  }

  lemma JoinedSnoc(ps: seq<Part>, p: Part, inl: bytes)
    requires AllSound(ps, inl) && Sound(p, inl)
    ensures AllSound(ps + [p], inl) && Joined(ps + [p], inl) == Joined(ps, inl) + Held(p, inl)
  {
    JoinedConcat(ps, [p], inl);
    JoinedOne(p, inl);
  }

  /** Parts at which a cursor has skipped `offset` octets of the first one. */
  function Rest(ps: seq<Part>, cursor: nat, offset: nat, inl: bytes): bytes
    requires cursor <= |ps| && AllSound(ps, inl)
    requires if cursor < |ps| then offset <= ps[cursor].length else offset == 0
  {
    if cursor == |ps| then []
    else Held(ps[cursor], inl)[offset..] + Joined(ps[cursor + 1..], inl)
  }

  lemma RestAt(ps: seq<Part>, cursor: nat, inl: bytes)
    requires cursor <= |ps| && AllSound(ps, inl)
    ensures AllSound(ps[cursor..], inl) && Rest(ps, cursor, 0, inl) == Joined(ps[cursor..], inl)
  {
    if cursor < |ps| {
      assert ps[cursor..][1..] == ps[cursor + 1..];
    }
  }

  /** Stepping over the rest of a part. */
  lemma RestStep(ps: seq<Part>, cursor: nat, offset: nat, inl: bytes)
    requires cursor < |ps| && AllSound(ps, inl) && offset <= ps[cursor].length
    ensures |Rest(ps, cursor, offset, inl)| == ps[cursor].length - offset + |Rest(ps, cursor + 1, 0, inl)|
    ensures Rest(ps, cursor, offset, inl)[ps[cursor].length - offset..] == Rest(ps, cursor + 1, 0, inl)
  {
    RestAt(ps, cursor + 1, inl);
  }

  /** The same octets in every part, held in the same way. */
  predicate Alike(ps: seq<Part>, qs: seq<Part>, inl: bytes) {
    && |ps| == |qs|
    && forall i | 0 <= i < |ps| ::
         Sound(ps[i], inl) && Sound(qs[i], inl) && Held(ps[i], inl) == Held(qs[i], inl) && ps[i].storage.Inline? == qs[i].storage.Inline?
  }

  lemma {:induction false} AlikeJoined(ps: seq<Part>, qs: seq<Part>, inl: bytes)
    requires Alike(ps, qs, inl)
    ensures AllSound(ps, inl) && AllSound(qs, inl) && Joined(ps, inl) == Joined(qs, inl)
    decreases |ps|
  {
    if ps != [] {
      AlikeJoined(ps[1..], qs[1..], inl);
    }
  }

  /** Parts outside the inline storage do not notice what is written there. */
  lemma {:induction false} InlineDoesNotMatter(ps: seq<Part>, inl: bytes, inl': bytes)
    requires AllSound(ps, inl) && NoneInline(ps)
    ensures AllSound(ps, inl') && Joined(ps, inl') == Joined(ps, inl)
    decreases |ps|
  {
    if ps != [] {
        InlineDoesNotMatter(ps[1..], inl, inl');
    }
  }

  lemma JoinedTake(ps: seq<Part>, i: nat, inl: bytes)
    requires i < |ps| && AllSound(ps, inl)
    ensures AllSound(ps[..i], inl) && AllSound(ps[..i + 1], inl) && AllSound(ps[i + 1..], inl) && Sound(ps[i], inl)
    ensures Joined(ps[..i + 1], inl) == Joined(ps[..i], inl) + Held(ps[i], inl)
    ensures Joined(ps, inl) == Joined(ps[..i + 1], inl) + Joined(ps[i + 1..], inl)
  {
    assert ps[..i + 1] == ps[..i] + [ps[i]];
    assert ps == ps[..i + 1] + ps[i + 1..];
    JoinedConcat(ps[..i], [ps[i]], inl);
    JoinedOne(ps[i], inl);
    JoinedConcat(ps[..i + 1], ps[i + 1..], inl);
  }

  /** A cursor among the parts; the parts before it are gone. */
  predicate Placed(ps: seq<Part>, inl: bytes, cursor: nat, offset: nat) {
    && AllSound(ps, inl) && (|ps| == 1 || NoneInline(ps))
    && cursor <= |ps| && (forall i | 0 <= i < cursor :: ps[i].length == 0)
    && (if cursor < |ps| then offset <= ps[cursor].length else offset == 0)
  }

  /** A cursor that stands on octets, unless none are left. */
  predicate OnOctets(ps: seq<Part>, cursor: nat, offset: nat) {
    cursor < |ps| ==> offset < ps[cursor].length
  }

  class WriteRequest {
    const inlineParts: array<Part>
    const inlineBytes: array<byte>
    var extraParts: seq<Part>
    var partCount: nat
    var bytesTotal: nat
    var sent: nat
    var cursorPart: nat
    var cursorOffset: nat

    /** The parts in order, and the contents of the inline storage. */
    ghost var parts: seq<Part>
    ghost var inl: bytes

    ghost predicate Stored()
      reads `extraParts, `partCount, `parts, `inl, inlineParts, inlineBytes
    {
      && inlineParts.Length == INLINE_PARTS && inlineBytes.Length == INLINE_BYTES
      && |extraParts| == (if partCount < INLINE_PARTS then 0 else partCount - INLINE_PARTS)
      && parts == inlineParts[..if partCount < INLINE_PARTS then partCount else INLINE_PARTS] + extraParts
      && inl == inlineBytes[..]
      && |parts| == partCount
    }

    ghost predicate Valid()
      reads this, inlineParts, inlineBytes
    {
      Stored() && Placed(parts, inl, cursorPart, cursorOffset)
    }

    /** The octets handed in and not yet consumed. */
    ghost function Remaining(): bytes
      reads this, inlineParts, inlineBytes
      requires Valid()
    {
      Rest(parts, cursorPart, cursorOffset, inl)
    }

    /** The cursor stands on octets, unless none are left; and all pointers are good. */
    ghost predicate Ready()
      reads this, inlineParts, inlineBytes
    {
      Valid() && OnOctets(parts, cursorPart, cursorOffset) && AllLocated(parts)
    }

    /** A request still being put together, of parts outside the inline storage. */
    ghost predicate Open(whole: bytes)
      reads this, inlineParts, inlineBytes
    {
      Stored() && cursorPart == 0 && cursorOffset == 0 && Outside(parts, inl) && Joined(parts, inl) == whole
    }

    constructor ()
      ensures Open([]) && sent == 0 && parts == []
      ensures fresh(inlineParts) && fresh(inlineBytes)
    {
      inlineParts := new Part[INLINE_PARTS](_ => RELEASED);
      inlineBytes := new byte[INLINE_BYTES](_ => 0);
      extraParts, partCount, bytesTotal, sent, cursorPart, cursorOffset := [], 0, 0, 0, 0, 0;
      parts := [];
      new;
      inl := inlineBytes[..];
    }

    function Get(index: nat): (p: Part)
      reads `extraParts, `partCount, `parts, `inl, inlineParts, inlineBytes
      requires var stored := Stored(); stored
      requires index < |parts|
      ensures p == parts[index]
    {
      if index < INLINE_PARTS then inlineParts[index] else extraParts[index - INLINE_PARTS]
    }

    /** Replaces a part in its place. */
    method Set(index: nat, p: Part)
      requires var stored := Stored(); stored
      requires index < |parts|
      modifies `extraParts, `parts, inlineParts
      ensures var stored := Stored(); stored
      ensures parts == old(parts)[index := p]
    {
      if index < INLINE_PARTS {
        inlineParts[index] := p;
      } else {
        extraParts := extraParts[index - INLINE_PARTS := p];
      }
      parts := parts[index := p];
    }

    method AppendPart(p: Part)
      requires var stored := Stored(); stored
      modifies `extraParts, `partCount, `parts, inlineParts
      ensures var stored := Stored(); stored
      ensures parts == old(parts) + [p] && partCount == old(partCount) + 1
    {
      if partCount < INLINE_PARTS {
        inlineParts[partCount] := p;
      } else {
        extraParts := extraParts + [p];
      }
      partCount := partCount + 1;
      parts := parts + [p];
    }

    // ----- putting a request together

    method AddOwned(value: bytes, ghost whole: bytes)
      requires var open := Open(whole); open
      modifies `extraParts, `partCount, `parts, inlineParts
      ensures var open := Open(whole + value); open
      ensures partCount == old(partCount) + 1
      ensures parts == old(parts) + [Part(Owned(value), Some(0), |value|, 0)]
    {
      var p := Part(Owned(value), Some(0), |value|, 0);
      JoinedSnoc(parts, p, inl);
      AppendPart(p);
    }

    /** A view of the caller's octets. */
    method AddInput(data: bytes, start: nat, length: nat, ghost whole: bytes)
      requires start + length <= |data| && var open := Open(whole); open
      modifies `extraParts, `partCount, `parts, inlineParts
      ensures var open := Open(whole + data[start..start + length]); open
      ensures partCount == old(partCount) + 1
    {
      var p := Part(External(data), Some(start), length, 0);
      JoinedSnoc(parts, p, inl);
      AppendPart(p);
    }

    /** Puts a header before the one part there is, which moves over. */
    method PrependOwned(value: bytes, ghost whole: bytes)
      requires partCount <= 1 && var open := Open(whole); open
      modifies `extraParts, `partCount, `parts, inlineParts
      ensures var open := Open(value + whole); open
      ensures partCount == old(partCount) + 1
    {
      if partCount == 0 {
        assert parts == [] && value + whole == whole + value;
        AddOwned(value, whole);
      } else {
        hide Joined, Held;
        var p, q := Part(Owned(value), Some(0), |value|, 0), Moved(Get(0));
        PartBehindHeader(parts, value, inl);
        AppendPart(q);
        Set(0, p);
        assert parts == [p, q];
      }
    }

    /** A short text goes into the inline storage with its header; a longer one becomes a part without one. */
    method AddSmallTextFrame(op: nat, payload: bytes) returns (framed: bool)
      requires op < 16 && parts == [] && var open := Open([]); open
      modifies `extraParts, `partCount, `parts, `inl, inlineParts, inlineBytes
      ensures framed ==> |payload| < INLINE_BYTES && var rewound := Rewound(F.ServerFrame(op, payload, false)); rewound
      ensures !framed ==> partCount == 1 && var open := Open(payload); open
    {
      hide Joined;
      framed := F.SmallTextFrame(inlineBytes, op, payload);
      inl := inlineBytes[..];
      if framed {
        AddInline(F.HeaderSize(F.ShortestForm(|payload|)) - 4 + |payload|, F.ServerFrame(op, payload, false));
      } else {
        assert [] + payload == payload;
        AddOwned(payload, []);
      }
    }

    /** The first octets of the inline storage become the one part. */
    method AddInline(size: nat, ghost frame: bytes)
      requires size == |frame| <= |inl| && parts == [] && cursorPart == 0 && cursorOffset == 0
      requires inl[..size] == frame && var stored := Stored(); stored
      modifies `extraParts, `partCount, `parts, inlineParts
      ensures var rewound := Rewound(frame); rewound
    {
      var p := Part(Inline, Some(0), size, 0);
      assert inl[0..size] == frame;
      JoinedOne(p, inl);
      AppendPart(p);
      assert parts == [p];
    }

    /** The request for an uncompressed message, whichever way its frame is put together. */
    method AddMessage(op: nat, payload: bytes)
      requires (op == F.TEXT || op == F.BINARY) && |payload| < 0x8000_0000_0000_0000
      requires parts == [] && var open := Open([]); open
      modifies `extraParts, `partCount, `parts, `inl, inlineParts, inlineBytes
      ensures var rewound := Rewound(F.ServerFrame(op, payload, false)); rewound
    {
      var framed := false;
      if op == F.TEXT {
        framed := AddSmallTextFrame(op, payload);
      } else {
        assert [] + payload[0..|payload|] == payload;
        AddInput(payload, 0, |payload|, []);
      }
      if !framed {
        var header := F.FrameHeader(|payload|, op);
        PrependOwned(header, payload);
        Rewind(header + payload);
      }
    }

    // ----- the cursor

    /** A cursor at the start of a part, or inside it, with `left` after it. */
    ghost predicate At(left: bytes)
      reads this, inlineParts, inlineBytes
    {
      && Valid() && AllLocated(parts) && Remaining() == left
      && (cursorOffset == 0 || OnOctets(parts, cursorPart, cursorOffset))
    }

    /** Lets go of the part under the cursor and steps to the next. */
    method PassPart(ghost left: bytes)
      requires cursorPart < partCount && var at := At(left); at
      modifies `extraParts, `parts, `cursorPart, `cursorOffset, inlineParts
      ensures cursorPart == old(cursorPart) + 1 && cursorOffset == 0
      ensures var n := old(parts[cursorPart].length - cursorOffset);
              0 <= n <= |left| && var at := At(left[n..]); at
    {
      hide Joined, Held, Rest;
      PassedPart(parts, cursorPart, cursorOffset, inl, left);
      Set(cursorPart, RELEASED);
      cursorPart := cursorPart + 1;
      cursorOffset := 0;
    }

    /** Steps over empty parts. */
    method SkipEmptyParts(ghost left: bytes)
      requires var at := At(left); at
      modifies `extraParts, `parts, `cursorPart, `cursorOffset, inlineParts
      ensures var ready := Ready(); ready
      ensures Remaining() == left && (old(cursorOffset) == 0 ==> cursorOffset == 0)
      ensures old(cursorPart < |parts| && parts[cursorPart].length > 0) ==> parts == old(parts) && cursorPart == old(cursorPart)
    {
      while cursorPart < partCount && Get(cursorPart).length == 0
        invariant var at := At(left); at
        invariant old(cursorPart < |parts| && parts[cursorPart].length > 0) ==> parts == old(parts) && cursorPart == old(cursorPart)
        invariant old(cursorOffset) == 0 ==> cursorOffset == 0
        decreases partCount - cursorPart
      {
        PassPart(left);
      }
    }

    /** Moves the cursor on by `length` octets. */
    method AdvanceCursor(length: nat, ghost left: bytes)
      requires length <= |left| && var at := At(left); at
      modifies `extraParts, `parts, `cursorPart, `cursorOffset, inlineParts
      ensures var ready := Ready(); ready
      ensures Remaining() == left[length..]
    {
      var n: nat := length;
      while n > 0 && cursorPart < partCount && n >= Get(cursorPart).length - cursorOffset
        invariant n <= length
        invariant var at := At(left[length - n..]); at
        decreases partCount - cursorPart
      {
        var available := Get(cursorPart).length - cursorOffset;
        PassPart(left[length - n..]);
        n := n - available;
      }
      if n > 0 {
        PassSome(n, left[length - n..]);
      } else {
        SkipEmptyParts(left[length..]);
      }
    }

    method PassSome(n: nat, ghost left: bytes)
      requires var at := At(left); at
      requires 0 < n <= |left| && (cursorPart < partCount ==> n < Get(cursorPart).length - cursorOffset)
      modifies `cursorOffset
      ensures var ready := Ready(); ready
      ensures Remaining() == left[n..]
    {
      PartlyPassed(parts, cursorPart, cursorOffset, n, inl);
      cursorOffset := cursorOffset + n;
    }

    // ----- getting it ready

    /** All parts are there, the cursor before the first, and together they hold `whole`. */
    ghost predicate Rewound(whole: bytes)
      reads this, inlineParts, inlineBytes
    {
      Valid() && cursorPart == 0 && cursorOffset == 0 && Joined(parts, inl) == whole
    }

    /** The parts hold `whole`, all of it still to be written. */
    ghost predicate Prepared(whole: bytes)
      reads this, inlineParts, inlineBytes
    {
      && Ready() && cursorOffset == 0 && partCount != 0
      && Joined(parts, inl) == whole && Remaining() == whole && bytesTotal == |whole| <= SIZE_MAX
    }

    /** Points a part at its own string again. */
    method Locate(index: nat, ghost whole: bytes)
      requires index < partCount && var rewound := Rewound(whole); rewound
      modifies `extraParts, `parts, inlineParts
      ensures var rewound := Rewound(whole); rewound
      ensures |old(parts)| == partCount && parts == old(parts)[index := Relocated(old(parts)[index])]
    {
      RelocationKeepsOctets(parts, index, inl);
      Set(index, Relocated(Get(index)));
    }

    /** Adds up the parts, repairs their pointers, and puts the cursor on the first octet. */
    method Prepare(ghost whole: bytes) returns (ok: bool)
      requires var rewound := Rewound(whole); rewound
      modifies `extraParts, `parts, `bytesTotal, `cursorPart, `cursorOffset, inlineParts
      ensures ok <==> partCount != 0 && |whole| <= SIZE_MAX
      ensures ok ==> var prepared := Prepared(whole); prepared
      ensures var kept := FirstKept(old(parts)); kept
    {
      hide Joined, Held, Rest, Counted;
      NoneCounted(parts, inl);
      bytesTotal, cursorPart, cursorOffset := 0, 0, 0;
      var index: nat := 0;
      ok := true;
      while ok && index < partCount
        invariant index <= partCount && var rewound := Rewound(whole); rewound
        invariant ok ==> var counted := Counted(parts, index, inl, bytesTotal); counted
        invariant !ok ==> |whole| > SIZE_MAX
        invariant var kept := FirstKept(old(parts)); kept
        decreases partCount - index
      {
        ok := CountPart(index, whole, old(parts));
        index := index + 1;
      }
      if ok {
        Start(whole, old(parts));
        ok := partCount != 0;
      }
    }

    /** A first part that is not empty is still first, of the same length, and the cursor is on it. */
    ghost predicate FirstKept(before: seq<Part>)
      reads `parts, `cursorPart
    {
      before != [] && before[0].length > 0 ==> parts != [] && parts[0].length == before[0].length && cursorPart == 0
    }

    method CountPart(index: nat, ghost whole: bytes, ghost before: seq<Part>) returns (ok: bool)
      requires var kept := FirstKept(before); kept
      requires index < partCount && var rewound := Rewound(whole); rewound
      requires var counted := Counted(parts, index, inl, bytesTotal); counted
      modifies `extraParts, `parts, `bytesTotal, inlineParts
      ensures var rewound := Rewound(whole); rewound
      ensures ok ==> var counted := Counted(parts, index + 1, inl, bytesTotal); counted
      ensures !ok ==> |whole| > SIZE_MAX
      ensures var kept := FirstKept(before); kept
    {
      CountedOn(parts, index, inl, bytesTotal);
      Locate(index, whole);
      ok := bytesTotal <= SIZE_MAX - Get(index).length;
      if ok {
        bytesTotal := bytesTotal + Get(index).length;
      }
    }

    method Start(ghost whole: bytes, ghost before: seq<Part>)
      requires var kept := FirstKept(before); kept
      requires var rewound := Rewound(whole); rewound
      requires var counted := Counted(parts, partCount, inl, bytesTotal); counted
      modifies `extraParts, `parts, `cursorPart, `cursorOffset, inlineParts
      ensures |whole| <= SIZE_MAX
      ensures partCount != 0 ==> var prepared := Prepared(whole); prepared
      ensures var kept := FirstKept(before); kept
    {
      AllCounted(parts, inl, bytesTotal);
      AllIsLeft(parts, 0, inl);
      SkipEmptyParts(whole);
      AllIsLeft(parts, cursorPart, inl);
    }

    // ----- fewer parts

    method ClearParts()
      requires var stored := Stored(); stored
      modifies `extraParts, `partCount, `parts, `cursorPart, `cursorOffset, inlineParts
      ensures parts == [] && partCount == 0 && var open := Open([]); open
    {
      inlineParts[0], inlineParts[1] := RELEASED, RELEASED;
      extraParts, partCount, cursorPart, cursorOffset := [], 0, 0, 0;
      parts := [];
    }

    /** The first `limit` octets, read part by part through the pointers. */
    method Gather(limit: nat, ghost whole: bytes) returns (copied: bytes)
      requires partCount > 1 && var prepared := Prepared(whole); prepared
      ensures copied == Upto(whole, limit)
    {
      assert var stored := Stored(); stored;
      copied := [];
      var index: nat := 0;
      while index < partCount && |copied| < limit
        invariant index <= partCount == |parts|
        invariant var taken := Taken(parts, index, limit, inl, copied); taken
      {
        TakeMore(parts, index, limit, inl, copied);
        var current := Get(index);
        var n := if current.length < limit - |copied| then current.length else limit - |copied|;
        copied := copied + ReadOutside(current, n);
        index := index + 1;
      }
      assert parts[..|parts|] == parts;
    }

    /** Turns a prepared request into one of a single part. */
    method Flatten(ghost whole: bytes) returns (ok: bool)
      requires var prepared := Prepared(whole); prepared
      modifies `extraParts, `partCount, `parts, `inl, `bytesTotal, `cursorPart, `cursorOffset, inlineParts, inlineBytes
      ensures ok && partCount == 1 && var prepared := Prepared(whole); prepared
    {
      if partCount <= 1 {
        return true;
      }
      if bytesTotal <= INLINE_BYTES {
        ok := FlattenInline(whole);
      } else {
        ok := FlattenOwned(whole);
      }
    }

    method FlattenInline(ghost whole: bytes) returns (ok: bool)
      requires 1 < partCount && |whole| <= INLINE_BYTES && var prepared := Prepared(whole); prepared
      modifies `extraParts, `partCount, `parts, `inl, `bytesTotal, `cursorPart, `cursorOffset, inlineParts, inlineBytes
      ensures ok && partCount == 1 && var prepared := Prepared(whole); prepared
    {
      var size := CopyInline(whole);
      ClearParts();
      var p := Part(Inline, Some(0), size, 0);
      JoinedOne(p, inl);
      AppendPart(p);
      assert parts == [p];
      ok := Prepare(whole);
    }

    method FlattenOwned(ghost whole: bytes) returns (ok: bool)
      requires 1 < partCount && |whole| <= SIZE_MAX && var prepared := Prepared(whole); prepared
      modifies `extraParts, `partCount, `parts, `bytesTotal, `cursorPart, `cursorOffset, inlineParts
      ensures ok && partCount == 1 && var prepared := Prepared(whole); prepared
    {
      var combined := Gather(bytesTotal, whole);
      assert combined == whole && [] + whole == whole;
      ClearParts();
      AddOwned(combined, []);
      Rewind(whole);
      ok := Prepare(whole);
    }

    ghost method Rewind(whole: bytes)
      requires var open := Open(whole); open
      ensures var rewound := Rewound(whole); rewound
    {
    }

    /** Copies the parts one after the other into the inline storage, which none of them uses. */
    method CopyInline(ghost whole: bytes) returns (offset: nat)
      requires 1 < partCount && |whole| <= INLINE_BYTES && var prepared := Prepared(whole); prepared
      modifies `inl, inlineBytes
      ensures var stored := Stored(); stored
      ensures offset == |whole| && inl[..offset] == whole
    {
      hide Copied, Joined;
      ghost var before := inl;
      CopyNone(parts, before);
      offset := 0;
      var index: nat := 0;
      while index < partCount
        invariant index <= partCount == |parts| && offset <= |inl| && var stored := Stored(); stored
        invariant var copied := Copied(parts, index, before, inl[..offset]); copied
      {
        CopyMore(parts, index, before, inl[..offset]);
        var current := Get(index);
        offset := WriteInline(offset, ReadOutside(current, current.length));
        index := index + 1;
      }
      AllCopied(parts, before, inl[..offset]);
    }

    method WriteInline(offset: nat, piece: bytes) returns (end: nat)
      requires offset + |piece| <= INLINE_BYTES && var stored := Stored(); stored
      modifies `inl, inlineBytes
      ensures var stored := Stored(); stored
      ensures end == offset + |piece| <= |inl| && inl[..end] == old(inl)[..offset] + piece
    {
      forall j | 0 <= j < |piece| { inlineBytes[offset + j] := piece[j]; }
      end := offset + |piece|;
      inl := inlineBytes[..];
    }

    /** Turns the first `prefixLength` octets into one part; the parts they were in shrink or go. */
    method CoalescePrefix(prefixLength: nat, ghost whole: bytes) returns (ok: bool)
      requires prefixLength > 0 && var prepared := Prepared(whole); prepared
      modifies `extraParts, `partCount, `parts, `inl, `bytesTotal, `cursorPart, `cursorOffset, inlineParts, inlineBytes
      ensures ok && var prepared := Prepared(whole); prepared
      ensures if old(partCount) <= 1 || prefixLength >= |whole| then partCount == 1
              else cursorPart == 0 < |parts| && parts[0].length == prefixLength
    {
      if partCount <= 1 || prefixLength >= bytesTotal {
        ok := Flatten(whole);
      } else {
        var prefix := Gather(prefixLength, whole);
        var original := TakeParts(whole);
        assert [] + prefix == whole[..prefixLength];
        AddOwned(prefix, []);
        assert parts == [Part(Owned(prefix), Some(0), prefixLength, 0)];
        AppendRest(original, prefixLength, whole);
        ok := Prepare(whole);
      }
    }

    /** Moves the parts out of the request. */
    method TakeParts(ghost whole: bytes) returns (original: seq<Part>)
      requires 1 < partCount && var prepared := Prepared(whole); prepared
      modifies `extraParts, `partCount, `parts, `cursorPart, `cursorOffset, inlineParts
      ensures partCount == 0 && parts == [] && var open := Open([]); open
      ensures Outside(original, inl) && Joined(original, inl) == whole
    {
      original := [];
      var index: nat := 0;
      while index < partCount
        invariant index <= partCount == |parts| && |original| == index
        invariant forall i | 0 <= i < index :: original[i] == Moved(parts[i])
      {
        original := original + [Moved(Get(index))];
        index := index + 1;
      }
      MovingKeepsOctets(parts, original, inl);
      ClearParts();
    }

    ghost predicate Completing(original: seq<Part>, consume: nat, whole: bytes)
      reads this, inlineParts, inlineBytes
    {
      Stored() && cursorPart == 0 && cursorOffset == 0 && partCount > 0 && Completes(parts, original, consume, inl, whole)
    }

    method AppendRest(original: seq<Part>, prefixLength: nat, ghost whole: bytes)
      requires var completing := Completing(original, prefixLength, whole); completing
      modifies `extraParts, `partCount, `parts, inlineParts
      ensures partCount > 0 && var open := Open(whole); open
      ensures old(parts) <= parts
    {
      var consume: nat, index: nat := prefixLength, 0;
      while index < |original|
        invariant index <= |original|
        invariant var completing := Completing(original[index..], consume, whole); completing
        invariant old(parts) <= parts
      {
        assert original[index..][0] == original[index] && original[index..][1..] == original[index + 1..];
        consume := AppendTrimmed(original[index], consume, original[index..], whole);
        index := index + 1;
      }
      assert Joined(parts, inl) + [] == whole;
    }

    method AppendTrimmed(current: Part, consume: nat, ghost rest: seq<Part>, ghost whole: bytes) returns (more: nat)
      requires rest != [] && rest[0] == current
      requires var completing := Completing(rest, consume, whole); completing
      modifies `extraParts, `partCount, `parts, inlineParts
      ensures var completing := Completing(rest[1..], more, whole); completing
      ensures old(parts) <= parts
    {
      hide Completes, Trimmed, Moved;
      if consume >= current.length {
        SkippedPart(parts, rest, consume, inl, whole);
        more := consume - current.length;
      } else {
        KeptPart(parts, rest, consume, inl, whole);
        AppendPart(Moved(Trimmed(current, consume)));
        more := 0;
      }
    }

    // ----- writing

    /** One vector a part, from the cursor on, as many as the system takes at once. */
    method RemainingIovecs(maximum: nat) returns (vectors: seq<bytes>)
      requires Ready() && maximum > 0
      ensures |vectors| <= maximum && Concat(vectors) <= Remaining()
      ensures Remaining() != [] ==> vectors != [] && vectors[0] != []
      ensures |vectors| < maximum ==> Concat(vectors) == Remaining()
    {
      var count := if partCount - cursorPart < maximum then partCount - cursorPart else maximum;
      ghost var left := Remaining();
      VectoredStart(parts, cursorPart, cursorOffset, inl);
      vectors := CollectVectors(count, left);
      VectoredEnd(parts, cursorPart, cursorOffset, cursorPart + count, inl, vectors, left);
    }

    method CollectVectors(count: nat, ghost left: bytes) returns (vectors: seq<bytes>)
      requires var stored := Stored(); stored
      requires cursorPart + count <= partCount == |parts|
      requires var vectored := Vectored(parts, cursorPart, cursorOffset, cursorPart, inl, [], left); vectored
      ensures var vectored := Vectored(parts, cursorPart, cursorOffset, cursorPart + count, inl, vectors, left); vectored
    {
      hide Vectored, ReadThrough;
      vectors := [];
      var index: nat := cursorPart;
      while index < cursorPart + count
        invariant index <= cursorPart + count
        invariant var vectored := Vectored(parts, cursorPart, cursorOffset, index, inl, vectors, left); vectored
      {
        VectoredOn(parts, cursorPart, cursorOffset, index, inl, vectors, left);
        var vector := VectorAt(index);
        vectors := vectors + [vector];
        index := index + 1;
      }
    }

    method VectorAt(index: nat) returns (vector: bytes)
      requires var stored := Stored(); stored
      requires index < |parts| && Located(parts[index]) && Sound(parts[index], inl)
      requires index == cursorPart ==> cursorOffset <= parts[index].length
      ensures vector == ReadThrough(parts[index], inl)[if index == cursorPart then cursorOffset else 0..]
    {
      var offset := if index == cursorPart then cursorOffset else 0;
      vector := ReadThrough(Get(index), inlineBytes[..])[offset..];
    }

    /** What is left of the part under the cursor. */
    method RemainingData() returns (data: bytes)
      requires Ready() && Remaining() != []
      ensures data != [] && data <= Remaining()
    {
      data := VectorAt(cursorPart);
    }

    /** Octets the descriptor took. */
    method Advance(length: nat)
      requires Ready() && length <= |Remaining()|
      modifies `extraParts, `parts, `cursorPart, `cursorOffset, `sent, inlineParts
      ensures var ready := Ready(); ready
      ensures sent == old(sent) + length && Remaining() == old(Remaining())[length..]
    {
      AdvanceCursor(length, Remaining());
      sent := sent + length;
    }

    /** Octets the TLS library took; they count as sent only once their ciphertext is out. */
    method StageTLS(length: nat)
      requires Ready() && length <= |Remaining()|
      modifies `extraParts, `parts, `cursorPart, `cursorOffset, inlineParts
      ensures var ready := Ready(); ready
      ensures Remaining() == old(Remaining())[length..]
    {
      AdvanceCursor(length, Remaining());
    }

    method CommitTLS(length: nat)
      requires Ready()
      modifies `sent
      ensures Ready() && sent == old(sent) + length && Remaining() == old(Remaining())
    {
      sent := sent + length;
    }
  }

  /** The first `n` octets of a part outside the inline storage, read through its pointer. */
  function ReadOutside(p: Part, n: nat): (r: bytes)
    requires Located(p) && n <= p.length && !p.storage.Inline? && Sound(p, [])
    ensures |r| == n
  {
    match p.storage
    case Nothing => []
    case Owned(text) => if n == 0 then [] else text[p.pointer.value..p.pointer.value + n]
    case External(data) => data[p.pointer.value..p.pointer.value + n]
    case Inline => []
  }

  lemma ReadIsHeld(p: Part, n: nat, inl: bytes)
    requires Located(p) && n <= p.length && !p.storage.Inline? && Sound(p, inl)
    ensures Sound(p, []) && ReadOutside(p, n) == Held(p, inl)[..n]
  {
    match p.storage
    case Owned(text) => TakeOfSlice(text, p.ownedOffset, p.ownedOffset + p.length, n);
    case External(data) => TakeOfSlice(data, p.pointer.value, p.pointer.value + p.length, n);
    case Nothing =>
  }

  function Relocated(p: Part): Part {
    if p.storage.Owned? && p.storage.text != [] then p.(pointer := Some(p.ownedOffset)) else p
  }

  lemma RelocationKeepsOctets(ps: seq<Part>, i: nat, inl: bytes)
    requires i < |ps| && AllSound(ps, inl)
    ensures var qs := ps[i := Relocated(ps[i])]; AllSound(qs, inl) && Joined(qs, inl) == Joined(ps, inl)
  {
    AlikeJoined(ps, ps[i := Relocated(ps[i])], inl);
  }

  /** The first `index` parts are located, and hold `n` octets together. */
  predicate Counted(ps: seq<Part>, index: nat, inl: bytes, n: nat) {
    index <= |ps| && AllSound(ps, inl) && AllSound(ps[..index], inl) && AllLocated(ps[..index])
    && n == |Joined(ps[..index], inl)| <= SIZE_MAX
  }

  lemma NoneCounted(ps: seq<Part>, inl: bytes)
    requires AllSound(ps, inl)
    ensures Counted(ps, 0, inl, 0)
  {
    assert ps[..0] == [];
  }

  lemma CountedOn(ps: seq<Part>, index: nat, inl: bytes, n: nat)
    requires Counted(ps, index, inl, n) && index < |ps|
    ensures var m, qs := n + ps[index].length, ps[index := Relocated(ps[index])];
            && Counted(qs, index, inl, n)
            && m <= |Joined(ps, inl)|
            && (m <= SIZE_MAX ==> Counted(qs, index + 1, inl, m))
  {
    var qs := ps[index := Relocated(ps[index])];
    RelocationKeepsOctets(ps, index, inl);
    JoinedTake(qs, index, inl);
    assert qs[..index] == ps[..index] && qs[..index + 1] == qs[..index] + [qs[index]];
  }

  lemma AllCounted(ps: seq<Part>, inl: bytes, n: nat)
    requires Counted(ps, |ps|, inl, n)
    ensures AllLocated(ps) && n == |Joined(ps, inl)| <= SIZE_MAX
  {
    assert ps[..|ps|] == ps;
  }

  function Upto(s: bytes, n: nat): bytes {
    if n < |s| then s[..n] else s
  }

  /** `copied` is what the first `index` parts hold. */
  predicate Copied(ps: seq<Part>, index: nat, inl: bytes, copied: bytes) {
    && index <= |ps| && AllSound(ps, inl) && AllLocated(ps) && NoneInline(ps)
    && AllSound(ps[..index], inl) && copied == Joined(ps[..index], inl)
  }

  lemma CopyNone(ps: seq<Part>, inl: bytes)
    requires AllSound(ps, inl) && AllLocated(ps) && NoneInline(ps)
    ensures Copied(ps, 0, inl, inl[..0])
  {
    assert ps[..0] == [];
  }

  lemma AllCopied(ps: seq<Part>, inl: bytes, copied: bytes)
    requires Copied(ps, |ps|, inl, copied)
    ensures AllSound(ps, inl) && copied == Joined(ps, inl)
  {
    assert ps[..|ps|] == ps;
  }

  lemma CopyMore(ps: seq<Part>, index: nat, inl: bytes, copied: bytes)
    requires Copied(ps, index, inl, copied) && index < |ps|
    ensures var p := ps[index];
            && Located(p) && !p.storage.Inline? && Sound(p, [])
            && Copied(ps, index + 1, inl, copied + ReadOutside(p, p.length))
            && |copied| + p.length <= |Joined(ps, inl)|
  {
    var p := ps[index];
    ReadIsHeld(p, p.length, inl);
    JoinedTake(ps, index, inl);
  }

  /** `copied` is what the first `index` parts hold, up to `limit`; all of it, while below the limit. */
  predicate Taken(ps: seq<Part>, index: nat, limit: nat, inl: bytes, copied: bytes) {
    && index <= |ps| && AllSound(ps, inl)
    && if |copied| < limit then Copied(ps, index, inl, copied) else copied == Upto(Joined(ps, inl), limit)
  }

  lemma TakeMore(ps: seq<Part>, index: nat, limit: nat, inl: bytes, copied: bytes)
    requires Taken(ps, index, limit, inl, copied) && index < |ps| && |copied| < limit
    ensures var p := ps[index];
            var n := if p.length < limit - |copied| then p.length else limit - |copied|;
            && Located(p) && !p.storage.Inline? && Sound(p, [])
            && Taken(ps, index + 1, limit, inl, copied + ReadOutside(p, n))
  {
    var p := ps[index];
    var n := if p.length < limit - |copied| then p.length else limit - |copied|;
    CopyMore(ps, index, inl, copied);
    if p.length >= limit - |copied| {
      ReadIsHeld(p, n, inl);
      JoinedTake(ps, index, inl);
      UptoOf(copied, Held(p, inl), Joined(ps[index + 1..], inl), n);
    }
  }

  lemma UptoOf(a: bytes, b: bytes, c: bytes, n: nat)
    requires n <= |b|
    ensures a + b[..n] == Upto((a + b) + c, |a| + n)
  {
  }

  predicate Outside(ps: seq<Part>, inl: bytes) {
    AllSound(ps, inl) && NoneInline(ps)
  }

  lemma MovingKeepsOctets(ps: seq<Part>, qs: seq<Part>, inl: bytes)
    requires Outside(ps, inl) && |qs| == |ps| && forall i | 0 <= i < |ps| :: qs[i] == Moved(ps[i])
    ensures Outside(qs, inl) && Joined(qs, inl) == Joined(ps, inl)
  {
    AlikeJoined(ps, qs, inl);
  }

  /** A part without its first `n` octets. */
  function Trimmed(p: Part, n: nat): Part
    requires n <= p.length
  {
    Part(p.storage, if p.pointer.Some? then Some(p.pointer.value + n) else None, p.length - n,
         if p.storage.Owned? && p.storage.text != [] then p.ownedOffset + n else p.ownedOffset)
  }

  lemma FirstOutside(ps: seq<Part>, inl: bytes)
    requires Outside(ps, inl) && ps != []
    ensures Outside(ps[1..], inl) && Sound(ps[0], inl) && !ps[0].storage.Inline? && |Held(ps[0], inl)| == ps[0].length
    ensures Joined(ps, inl) == Held(ps[0], inl) + Joined(ps[1..], inl)
  {
  }

  lemma TrimmedHolds(p: Part, n: nat, inl: bytes)
    requires Sound(p, inl) && n <= p.length
    ensures Sound(Moved(Trimmed(p, n)), inl) && Held(Moved(Trimmed(p, n)), inl) == Held(p, inl)[n..]
  {
    hide Held, Sound, Moved, Trimmed;
    match p.storage
    case Owned(text) => TrimmedOwned(p, n, inl, text);
    case External(data) => TrimmedView(p, n, inl, data);
    case Inline => TrimmedView(p, n, inl, inl);
    case Nothing => TrimmedNothing(p, n, inl);
  }

  lemma TrimmedNothing(p: Part, n: nat, inl: bytes)
    requires p.storage == Nothing && Sound(p, inl) && n <= p.length
    ensures Sound(Moved(Trimmed(p, n)), inl) && Held(Moved(Trimmed(p, n)), inl) == Held(p, inl)[n..]
  {
  }

  lemma TrimmedOwned(p: Part, n: nat, inl: bytes, text: bytes)
    requires p.storage == Owned(text) && Sound(p, inl) && n <= p.length
    ensures Sound(Moved(Trimmed(p, n)), inl) && Held(Moved(Trimmed(p, n)), inl) == Held(p, inl)[n..]
  {
    var q := Moved(Trimmed(p, n));
    TrimmedString(text, p.ownedOffset, p.length, n);
    assert q.storage == Owned(text) && q.ownedOffset == p.ownedOffset + n && q.length == p.length - n;
  }

  lemma TrimmedView(p: Part, n: nat, inl: bytes, data: bytes)
    requires p.storage == External(data) || (p.storage == Inline && data == inl)
    requires Sound(p, inl) && n <= p.length
    ensures Sound(Moved(Trimmed(p, n)), inl) && Held(Moved(Trimmed(p, n)), inl) == Held(p, inl)[n..]
  {
    var q := Moved(Trimmed(p, n));
    TrimmedString(data, p.pointer.value, p.length, n);
    assert q.storage == p.storage && q.pointer == Some(p.pointer.value + n) && q.length == p.length - n;
  }

  lemma TrimmedString(text: bytes, start: nat, length: nat, n: nat)
    requires n <= length && start + length <= |text|
    ensures text == [] ==> n == 0
    ensures text[start..start + length][n..] == text[start + n..start + length]
  {
    DropOfSlice(text, start, start + length, n);
  }

  /** What is left of `original` after `consume` octets completes the parts to `whole`. */
  predicate Completes(ps: seq<Part>, original: seq<Part>, consume: nat, inl: bytes, whole: bytes) {
    && Outside(ps, inl) && Outside(original, inl) && consume <= |Joined(original, inl)|
    && Joined(ps, inl) + Joined(original, inl)[consume..] == whole
  }

  lemma SkippedPart(ps: seq<Part>, original: seq<Part>, consume: nat, inl: bytes, whole: bytes)
    requires original != [] && Completes(ps, original, consume, inl, whole) && consume >= original[0].length
    ensures Completes(ps, original[1..], consume - original[0].length, inl, whole)
  {
    hide Joined, Held, Sound;
    FirstOutside(original, inl);
    var first, rest := Held(original[0], inl), Joined(original[1..], inl);
    DropPast(first, rest, consume);
    assert Joined(original, inl)[consume..] == rest[consume - |first|..];
  }

  lemma KeptPart(ps: seq<Part>, original: seq<Part>, consume: nat, inl: bytes, whole: bytes)
    requires original != [] && Completes(ps, original, consume, inl, whole) && consume < original[0].length
    ensures Completes(ps + [Moved(Trimmed(original[0], consume))], original[1..], 0, inl, whole)
  {
    var kept := Moved(Trimmed(original[0], consume));
    FirstOutside(original, inl);
    TrimmedHolds(original[0], consume, inl);
    JoinedSnoc(ps, kept, inl);
    Regroup(Joined(ps, inl), Held(original[0], inl), Joined(original[1..], inl), consume);
  }

  lemma Regroup(a: bytes, b: bytes, c: bytes, n: nat)
    requires n <= |b|
    ensures a + (b + c)[n..] == (a + b[n..]) + c[0..]
  {
    DropInside(b, c, 0, n);
  }

  /** What a part holds, read through its pointer. */
  function ReadThrough(p: Part, inl: bytes): (r: bytes)
    requires Located(p) && Sound(p, inl)
    ensures r == Held(p, inl) && |r| == p.length
  {
    if p.length == 0 then []
    else match p.storage
      case Owned(text) => text[p.pointer.value..p.pointer.value + p.length]
      case External(data) => data[p.pointer.value..p.pointer.value + p.length]
      case Inline => inl[p.pointer.value..p.pointer.value + p.length]
  }

  lemma RestSplit(ps: seq<Part>, cursor: nat, offset: nat, inl: bytes)
    requires cursor < |ps| && AllSound(ps, inl) && offset <= ps[cursor].length
    ensures Sound(ps[cursor], inl)
    ensures Rest(ps, cursor, offset, inl) == Held(ps[cursor], inl)[offset..] + Rest(ps, cursor + 1, 0, inl)
  {
    RestAt(ps, cursor + 1, inl);
  }

  /** The vectors before `index`, and what they are the start of. */
  predicate Vectored(ps: seq<Part>, cursor: nat, offset: nat, index: nat, inl: bytes, vectors: seq<bytes>, left: bytes) {
    && cursor <= index <= |ps| && AllSound(ps, inl) && AllLocated(ps) && |vectors| == index - cursor
    && (if cursor < |ps| then offset < ps[cursor].length else offset == 0)
    && (index > cursor ==> vectors[0] != [])
    && Concat(vectors) + Rest(ps, index, if index == cursor then offset else 0, inl) == left
  }

  lemma VectoredStart(ps: seq<Part>, cursor: nat, offset: nat, inl: bytes)
    requires cursor <= |ps| && AllSound(ps, inl) && AllLocated(ps)
    requires if cursor < |ps| then offset < ps[cursor].length else offset == 0
    ensures Vectored(ps, cursor, offset, cursor, inl, [], Rest(ps, cursor, offset, inl))
  {
    var left := Rest(ps, cursor, offset, inl);
    assert Concat([]) + left == left;
  }

  lemma VectoredOn(ps: seq<Part>, cursor: nat, offset: nat, index: nat, inl: bytes, vectors: seq<bytes>, left: bytes)
    requires Vectored(ps, cursor, offset, index, inl, vectors, left) && index < |ps|
    ensures var o := if index == cursor then offset else 0;
            && Located(ps[index]) && Sound(ps[index], inl) && o <= ps[index].length
            && Vectored(ps, cursor, offset, index + 1, inl, vectors + [ReadThrough(ps[index], inl)[o..]], left)
  {
    hide Rest, Concat, Held, ReadThrough, Joined;
    var o := if index == cursor then offset else 0;
    var piece, rest := ReadThrough(ps[index], inl)[o..], Rest(ps, index + 1, 0, inl);
    RestSplit(ps, index, o, inl);
    ConcatSnoc(vectors, piece);
    assert Concat(vectors) + (piece + rest) == (Concat(vectors) + piece) + rest;
    assert vectors != [] ==> (vectors + [piece])[0] == vectors[0];
  }

  lemma VectoredEnd(ps: seq<Part>, cursor: nat, offset: nat, index: nat, inl: bytes, vectors: seq<bytes>, left: bytes)
    requires Vectored(ps, cursor, offset, index, inl, vectors, left)
    ensures Concat(vectors) <= left
    ensures index == |ps| ==> Concat(vectors) == left
    ensures index == cursor < |ps| ==> left != []
    ensures index == cursor == |ps| ==> left == []
    ensures index > cursor ==> vectors[0] != []
  {
  }

  lemma {:induction false} ConcatSnoc(vs: seq<bytes>, v: bytes)
    ensures Concat(vs + [v]) == Concat(vs) + v
    decreases |vs|
  {
    if vs == [] {
      assert Concat([v]) == v + Concat([]);
    } else {
      assert (vs + [v])[1..] == vs[1..] + [v];
      ConcatSnoc(vs[1..], v);
    }
  }

  predicate AllLocated(ps: seq<Part>) {
    forall i | 0 <= i < |ps| :: Located(ps[i])
  }

  /** Letting go of a part the cursor has passed changes nothing that is left. */
  lemma ReleaseKeepsRest(ps: seq<Part>, i: nat, inl: bytes)
    requires i < |ps| && AllSound(ps, inl)
    ensures AllSound(ps[i := RELEASED], inl)
    ensures Rest(ps[i := RELEASED], i + 1, 0, inl) == Rest(ps, i + 1, 0, inl)
  {
    var qs := ps[i := RELEASED];
    assert qs[i + 1..] == ps[i + 1..];
    RestAt(ps, i + 1, inl);
    RestAt(qs, i + 1, inl);
  }

  /** The part under the cursor is let go of, and the next one is under it. */
  lemma PassedPart(ps: seq<Part>, cursor: nat, offset: nat, inl: bytes, left: bytes)
    requires cursor < |ps| && Placed(ps, inl, cursor, offset) && AllLocated(ps) && Rest(ps, cursor, offset, inl) == left
    ensures var qs, n := ps[cursor := RELEASED], ps[cursor].length - offset;
            && Placed(qs, inl, cursor + 1, 0) && AllLocated(qs)
            && 0 <= n <= |left| && Rest(qs, cursor + 1, 0, inl) == left[n..]
  {
    RestStep(ps, cursor, offset, inl);
    ReleaseKeepsRest(ps, cursor, inl);
  }

  /** What the cursor has passed is gone, so all that is held is what is left. */
  lemma {:induction false} AllIsLeft(ps: seq<Part>, cursor: nat, inl: bytes)
    requires cursor <= |ps| && AllSound(ps, inl) && forall i | 0 <= i < cursor :: ps[i].length == 0
    ensures Joined(ps, inl) == Rest(ps, cursor, 0, inl)
    decreases cursor
  {
    if cursor > 0 {
      AllIsLeft(ps, cursor - 1, inl);
      RestStep(ps, cursor - 1, 0, inl);
    } else {
      RestAt(ps, 0, inl);
      assert ps[0..] == ps;
    }
  }

  lemma PartlyPassed(ps: seq<Part>, cursor: nat, offset: nat, n: nat, inl: bytes)
    requires cursor < |ps| && AllSound(ps, inl) && offset + n <= ps[cursor].length
    ensures n <= |Rest(ps, cursor, offset, inl)|
    ensures Rest(ps, cursor, offset + n, inl) == Rest(ps, cursor, offset, inl)[n..]
  {
    DropInside(Held(ps[cursor], inl), Joined(ps[cursor + 1..], inl), offset, n);
  }

  lemma DropPast(a: bytes, b: bytes, n: nat)
    requires |a| <= n <= |a + b|
    ensures (a + b)[n..] == b[n - |a|..]
  {
    DropOfSecond(a, b, n - |a|);
  }

  lemma DropInside(a: bytes, b: bytes, i: nat, n: nat)
    requires i + n <= |a|
    ensures n <= |a[i..] + b| && a[i + n..] + b == (a[i..] + b)[n..]
  {
    DropOfDrop(a, i, n);
    DropOfFirst(a[i..], b, n);
  }
}
