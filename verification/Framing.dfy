/**
 The wire format of a client frame (section 5.2 of RFC 6455), the headers the
 server writes, and the body of a Close frame (section 5.5.1).
 */
module Framing {
  import opened Octets
  import opened Masking
  import Utf8

  const CONTINUATION: nat := 0
  const TEXT: nat := 1
  const BINARY: nat := 2
  const CLOSE: nat := 8
  const PING: nat := 9
  const PONG: nat := 10

  // ----- client frames

  /** How the payload length is written: in 7, 16 or 64 bits. */
  datatype LengthForm = Short | Medium | Long

  datatype Header = Header(
    fin: bool, rsv1: bool, rsv23: bool, op: nat,
    masked: bool, form: LengthForm, length: nat, key: Key)
  {
    function Size(): nat { HeaderSize(form) }

    /** The shortest form was used, and the top bit of the 64-bit form is clear. */
    predicate Minimal() {
      match form
      case Short => length < 126
      case Medium => 126 <= length < 0x1_0000
      case Long => 0x1_0000 <= length < 0x8000_0000_0000_0000
    }
  }

  predicate IsFin(b0: byte) { Bits(b0, 128, 2) == 1 }
  predicate Rsv1(b0: byte) { Bits(b0, 64, 2) == 1 }
  predicate Rsv23(b0: byte) { Bits(b0, 16, 4) != 0 }
  predicate IsMasked(b1: byte) { Bits(b1, 128, 2) == 1 }

  function GetOpCode(b0: byte): (op: nat)
    ensures op < 16
  {
    b0 % 16
  }

  function PayloadLength(b1: byte): (n: nat)
    ensures n < 128
  {
    b1 % 128
  }

  function FormOf(b1: byte): LengthForm {
    if PayloadLength(b1) < 126 then Short else if PayloadLength(b1) == 126 then Medium else Long
  }

  /** Octets before the payload, the 4 octets of masking key included. */
  function HeaderSize(form: LengthForm): nat {
    match form case Short => 6 case Medium => 8 case Long => 14
  }

  /**
   The header at the front of `b`, once all of it is there. An unmasked header is
   also read as if a key followed; it is rejected later.
   */
  function ParseHeader(b: bytes): (r: Option<Header>)
    ensures r.Some? ==> |b| >= r.value.Size() && r.value.op < 16
  {
    if |b| < 6 then None else
    var form := FormOf(b[1]);
    var size := HeaderSize(form);
    if |b| < size then None else
    var length := match form
      case Short => PayloadLength(b[1])
      case Medium => FromBigEndian(b[2..4])
      case Long => FromBigEndian(b[2..10]);
    Some(Header(IsFin(b[0]), Rsv1(b[0]), Rsv23(b[0]), GetOpCode(b[0]),
                IsMasked(b[1]), form, length, b[size - 4..size]))
  }

  lemma ParseHeaderPrefix(b: bytes, y: bytes)
    requires ParseHeader(b).Some?
    ensures ParseHeader(b + y) == ParseHeader(b)
  {
    var size := HeaderSize(FormOf(b[1]));
    if size == 8 {
      SliceOfFirst(b, y, 2, 4);
    } else if size == 14 {
      SliceOfFirst(b, y, 2, 10);
    }
    SliceOfFirst(b, y, size - 4, size);
  }

  /** What a client puts on the wire for one frame. */
  datatype ClientFrame = ClientFrame(fin: bool, rsv1: bool, op: nat, key: Key, payload: bytes) {
    predicate Valid() { op < 16 && |payload| < 0x8000_0000_0000_0000 }

    function Head(): Header {
      Header(fin, rsv1, false, op, true, ShortestForm(|payload|), |payload|, key)
    }
  }

  function ShortestForm(n: nat): LengthForm {
    if n < 126 then Short else if n < 0x1_0000 then Medium else Long
  }

  /** The second octet of a frame: the mask bit and a 7-bit length or length form. */
  function Marker(masked: bool, n: nat): (m: byte)
    requires n < 128
    ensures PayloadLength(m) == n && IsMasked(m) == masked
  {
    (if masked then 128 else 0) + n
  }

  /** The length octets after the first octet. */
  function LengthOctets(n: nat, masked: bool): (b: bytes)
    requires n < 0x8000_0000_0000_0000
    ensures |b| + 5 == HeaderSize(ShortestForm(n))
  {
    match ShortestForm(n)
    case Short => [Marker(masked, n)]
    case Medium => [Marker(masked, 126)] + ToBigEndian(n, 2)
    case Long => [Marker(masked, 127)] + ToBigEndian(n, 8)
  }

  function FirstOctet(fin: bool, rsv1: bool, op: nat): byte
    requires op < 16
  {
    (if fin then 128 else 0) + (if rsv1 then 64 else 0) + op
  }

  function Encode(f: ClientFrame): bytes
    requires f.Valid()
  {
    [FirstOctet(f.fin, f.rsv1, f.op)] + LengthOctets(|f.payload|, true) + f.key + Unmask(f.payload, f.key)
  }

  lemma FirstOctetBits(fin: bool, rsv1: bool, op: nat)
    requires op < 16
    ensures var b := FirstOctet(fin, rsv1, op);
            IsFin(b) == fin && Rsv1(b) == rsv1 && !Rsv23(b) && GetOpCode(b) == op
  {
  }

  /** The length octets of a frame are read back in the form and with the value they were written. */
  lemma LengthRoundTrip(n: nat, b: bytes)
    requires n < 0x8000_0000_0000_0000
    requires |b| >= HeaderSize(ShortestForm(n)) && b[1..HeaderSize(ShortestForm(n)) - 4] == LengthOctets(n, true)
    ensures FormOf(b[1]) == ShortestForm(n) && IsMasked(b[1])
    ensures ParseHeader(b).Some? && ParseHeader(b).value.length == n
  {
    var lengths := LengthOctets(n, true);
    assert b[1] == b[1..HeaderSize(ShortestForm(n)) - 4][0] == lengths[0];
    match ShortestForm(n) {
      case Short =>
      case Medium =>
        BigEndianRoundTrip(n, 2);
        DropOfSlice(b, 1, 4, 1);
        assert lengths[1..] == ToBigEndian(n, 2);
      case Long =>
        BigEndianRoundTrip(n, 8);
        DropOfSlice(b, 1, 10, 1);
        assert lengths[1..] == ToBigEndian(n, 8);
    }
  }

  lemma Behind(front: bytes, x: bytes, y: bytes, b: bytes)
    requires b == front + (x + y) || b == front + x + y
    ensures b[|front|..|front| + |x|] == x && b[|front| + |x|..] == y
  {
    SliceOfSecond(front, x + y, 0, |x|);
    TakeOfFirst(x, y, |x|);
    DropOfSecond(front + x, y, 0);
    assert front + (x + y) == front + x + y;
  }

  /** The header parser reads back exactly the header of an encoded frame, whatever follows it. */
  lemma HeaderRoundTrip(f: ClientFrame, y: bytes)
    requires f.Valid()
    ensures var b := Encode(f) + y;
            && ParseHeader(b) == Some(f.Head())
            && |b| >= f.Head().Size() + |f.payload|
            && b[f.Head().Size()..f.Head().Size() + |f.payload|] == Unmask(f.payload, f.key)
            && b[f.Head().Size() + |f.payload|..] == y
  {
    var n, size := |f.payload|, f.Head().Size();
    var lengths, masked := LengthOctets(n, true), Unmask(f.payload, f.key);
    var b := Encode(f) + y;
    Behind([FirstOctet(f.fin, f.rsv1, f.op)], lengths, f.key + masked + y, b);
    Behind([FirstOctet(f.fin, f.rsv1, f.op)] + lengths, f.key, masked + y, b);
    Behind([FirstOctet(f.fin, f.rsv1, f.op)] + lengths + f.key, masked, y, b);
    FirstOctetBits(f.fin, f.rsv1, f.op);
    LengthRoundTrip(n, b);
  }

  /** The octets before the payload: a masked header in its shortest form is written in one way only. */
  function HeaderOctets(h: Header): bytes
    requires h.op < 16 && h.length < 0x8000_0000_0000_0000
  {
    [FirstOctet(h.fin, h.rsv1, h.op)] + LengthOctets(h.length, true) + h.key
  }

  lemma FirstOctetIsKnown(b0: byte)
    requires !Rsv23(b0)
    ensures b0 == FirstOctet(IsFin(b0), Rsv1(b0), GetOpCode(b0))
  {
    assert b0 / 16 < 16 && b0 / 64 < 4 && b0 / 128 < 2;
  }

  lemma MarkerIsKnown(b1: byte)
    requires IsMasked(b1)
    ensures b1 == Marker(true, PayloadLength(b1))
  {
    assert b1 / 128 < 2;
  }

  lemma LengthIsKnown(b: bytes, h: Header)
    requires ParseHeader(b) == Some(h) && h.masked && h.Minimal()
    ensures h.length < 0x8000_0000_0000_0000 && b[1..h.Size() - 4] == LengthOctets(h.length, true)
  {
    MarkerIsKnown(b[1]);
    match h.form {
      case Short =>
        assert b[1..2] == [b[1]];
      case Medium =>
        FromBigEndianRoundTrip(b[2..4]);
        SlicesJoin(b, 1, 2, 4);
        assert b[1..2] == [b[1]];
      case Long =>
        FromBigEndianRoundTrip(b[2..10]);
        SlicesJoin(b, 1, 2, 10);
        assert b[1..2] == [b[1]];
    }
  }

  /** A well-formed header that was read is, octet for octet, the one that is written for it. */
  lemma HeaderIsCanonical(b: bytes, h: Header)
    requires ParseHeader(b) == Some(h) && h.masked && !h.rsv23 && h.Minimal()
    ensures h.length < 0x8000_0000_0000_0000 && b[..h.Size()] == HeaderOctets(h)
  {
    FirstOctetIsKnown(b[0]);
    LengthIsKnown(b, h);
    var n := h.Size();
    SlicesJoin(b, 0, 1, n - 4);
    SlicesJoin(b, 0, n - 4, n);
    assert b[0..1] == [b[0]] && b[..n] == b[0..n];
  }

  // ----- server headers

  /** The header of an unmasked, unfragmented frame with `n` payload octets. */
  function ServerHeader(op: nat, n: nat, compressed: bool): (h: bytes)
    requires op < 16 && n < 0x8000_0000_0000_0000
    ensures |h| == HeaderSize(ShortestForm(n)) - 4
  {
    var lengths := LengthOctets(n, false);
    [FirstOctet(true, compressed, op)] + lengths
  }

  function ServerFrame(op: nat, payload: bytes, compressed: bool): bytes
    requires op < 16 && |payload| < 0x8000_0000_0000_0000
  {
    ServerHeader(op, |payload|, compressed) + payload
  }

  /** A frame as a client reads it from the server. */
  datatype Received = Received(fin: bool, compressed: bool, op: nat, payload: bytes)

  /** The number that octets write in network order, in two or eight of them. */
  function Number(b: bytes): nat
    requires |b| == 2 || |b| == 8
  {
    if |b| == 2 then Word(0, 0, b[0], b[1])
    else Word(b[0], b[1], b[2], b[3]) * 0x1_0000_0000 + Word(b[4], b[5], b[6], b[7])
  }

  function Word(i: nat, j: nat, k: nat, l: nat): nat {
    i * 0x100_0000 + j * 0x1_0000 + k * 0x100 + l
  }

  /**
   What a client makes of the octets of one frame from a server, from the diagram in section 5.2 of
   RFC 6455: not masked, no reserved bit but the first, the length in its shortest form.
   */
  function ReadServerFrame(f: bytes): Option<Received> {
    if |f| < 2 || f[1] >= 0x80 || f[0] / 0x10 % 4 != 0 then None
    else
      var size := if f[1] < 126 then 2 else if f[1] == 126 then 4 else 10;
      if |f| < size then None
      else
        var n := if size == 2 then f[1] else Number(f[2..size]);
        var least := if size == 2 then 0 else if size == 4 then 126 else 0x1_0000;
        if n < least || |f| != size + n then None
        else Some(Received(f[0] >= 0x80, f[0] / 0x40 % 2 == 1, f[0] % 0x10, f[size..]))
  }

  lemma FromBigEndianNumber(b: bytes)
    requires |b| == 2 || |b| == 8
    ensures FromBigEndian(b) == Number(b)
  {
    assert b == b[..|b|] && FromBigEndian(b[..0]) == 0;
    FromBigEndianMore(b, 0);
    FromBigEndianMore(b, 1);
    if |b| == 8 {
      FromBigEndianMore(b, 2);
      FromBigEndianMore(b, 3);
      FromBigEndianMore(b, 4);
      FromBigEndianMore(b, 5);
      FromBigEndianMore(b, 6);
      FromBigEndianMore(b, 7);
    }
  }

  lemma FromBigEndianMore(b: bytes, k: nat)
    requires k < |b|
    ensures FromBigEndian(b[..k + 1]) == FromBigEndian(b[..k]) * 256 + b[k]
  {
    assert b[..k + 1][..k] == b[..k];
  }

  lemma ServerLengthIsRead(n: nat)
    requires n < 0x8000_0000_0000_0000
    ensures var l := LengthOctets(n, false);
            if n < 126 then l == [n]
            else if n < 0x1_0000 then |l| == 3 && l[0] == 126 && Number(l[1..]) == n
            else |l| == 9 && l[0] == 127 && Number(l[1..]) == n
  {
    if n >= 126 {
      var k := if n < 0x1_0000 then 2 else 8;
      assert LengthOctets(n, false)[1..] == ToBigEndian(n, k);
      assert Pow256(2) == 0x1_0000;
      assert Pow256(8) == 0x1_0000_0000_0000_0000 by { assert Pow256(4) == 0x1_0000_0000; }
      BigEndianRoundTrip(n, k);
      FromBigEndianNumber(ToBigEndian(n, k));
    }
  }

  /** A frame the server writes is read by the client as whole, with its opcode, its compression bit and its payload. */
  lemma ServerFrameIsRead(op: nat, payload: bytes, compressed: bool)
    requires op < 16 && |payload| < 0x8000_0000_0000_0000
    ensures ReadServerFrame(ServerFrame(op, payload, compressed)) == Some(Received(true, compressed, op, payload))
  {
    var n, f, l := |payload|, ServerFrame(op, payload, compressed), LengthOctets(|payload|, false);
    var size := if n < 126 then 2 else if n < 0x1_0000 then 4 else 10;
    ServerLengthIsRead(n);
    var h := ServerHeader(op, n, compressed);
    assert f[0] == h[0] && f[1] == h[1] == l[0];
    SliceOfFirst(h, payload, 2, size);
    assert h[2..size] == l[1..];
    DropOfSecond(h, payload, 0);
  }

  /** The protocol library's writer; `dst` has room for the longest header. */
  method FormatMessageHeader(dst: array<byte>, op: nat, reportedLength: nat, compressed: bool) returns (size: nat)
    requires dst.Length >= 10 && op < 16 && reportedLength < 0x8000_0000_0000_0000
    modifies dst
    ensures size <= 10 && dst[..size] == ServerHeader(op, reportedLength, compressed)
    ensures dst[size..] == old(dst[size..])
  {
    if reportedLength < 126 {
      size := 2;
      dst[1] := reportedLength;
    } else if reportedLength <= 0xFFFF {
      size := 4;
      dst[1] := 126;
      var network := ToBigEndian(reportedLength, 2);
      forall i | 0 <= i < 2 { dst[2 + i] := network[i]; }
    } else {
      size := 10;
      dst[1] := 127;
      var network := ToBigEndian(reportedLength, 8);
      forall i | 0 <= i < 8 { dst[2 + i] := network[i]; }
    }
    dst[0] := FirstOctet(true, compressed, op);
    ghost var header := ServerHeader(op, reportedLength, compressed);
    assert forall i | 0 <= i < size :: dst[i] == header[i];
    TwoParts(dst[..], header, []);
  }

  /** The transport's writer, which shifts the length octet by octet. */
  method FrameHeader(payloadLength: nat, op: nat) returns (header: bytes)
    requires op < 16 && payloadLength < 0x8000_0000_0000_0000
    ensures header == ServerHeader(op, payloadLength, false)
  {
    var first := FirstOctet(true, false, op);
    if payloadLength < 126 {
      header := [first, payloadLength];
    } else if payloadLength <= 0xFFFF {
      header := [first, 126, payloadLength / 256 % 256, payloadLength % 256];
      BigEndianPair(payloadLength);
    } else {
      header := [first, 127];
      var index := 0;
      while index < 8
        invariant index <= 8
        invariant header == [first, 127] + ToBigEndian(payloadLength, 8)[..index]
      {
        BigEndianOctet(payloadLength, 8, index);
        header := header + [payloadLength / Pow256(7 - index) % 256];
        index := index + 1;
      }
      assert ToBigEndian(payloadLength, 8)[..8] == ToBigEndian(payloadLength, 8);
    }
  }

  /** The small-text writer, which puts header and payload into a request's inline storage. */
  method SmallTextFrame(inlineBytes: array<byte>, op: nat, payload: bytes) returns (framed: bool)
    requires inlineBytes.Length == 1024 + 14 && op < 16
    modifies inlineBytes
    ensures framed <==> HeaderSize(ShortestForm(|payload|)) - 4 + |payload| <= inlineBytes.Length
    ensures framed ==> var frame := ServerFrame(op, payload, false); inlineBytes[..|frame|] == frame
    ensures !framed ==> inlineBytes[..] == old(inlineBytes[..])
  {
    var n := |payload|;
    var size := if n < 126 then 2 else if n <= 0xFFFF then 4 else 10;
    if n > inlineBytes.Length - size {
      return false;
    }
    inlineBytes[0] := FirstOctet(true, false, op);
    if size == 2 {
      inlineBytes[1] := n;
    } else {
      inlineBytes[1] := 126;
      inlineBytes[2] := n / 256 % 256;
      inlineBytes[3] := n % 256;
      BigEndianPair(n);
    }
    ghost var header := ServerHeader(op, n, false);
    assert forall i | 0 <= i < size :: inlineBytes[i] == header[i];
    forall i | 0 <= i < n { inlineBytes[size + i] := payload[i]; }
    TwoParts(inlineBytes[..], header, payload);
    return true;
  }

  lemma BigEndianPair(n: nat)
    requires n < 0x1_0000
    ensures ToBigEndian(n, 2) == [n / 256 % 256, n % 256]
  {
    assert ToBigEndian(n / 256, 1) == ToBigEndian(n / 256 / 256, 0) + [n / 256 % 256];
  }
}
